# Verification of the Sentinel proxy

A Dafny 4.11 model of a proxy that binds each access token to a DPoP key (RFC 9449) and to the TLS
fingerprint of the connection it was issued on, of the backend behind it, and of the hash-chained log it
keeps. `dafny verify dfyconfig.toml` checks all of it.

## How it is laid out

**The proxy as a state machine.** `Protocol` has one step per hook call over a clock: what a ClientHello,
a request or a response does to the bindings, the replay set, the limiter, the step-up challenges, the
flow metadata, the audit log and the dashboard, and how the hook answers. `ProtocolSteps` reads each
step's effect off its outcome, `ProtocolHistory` shows that every store is a function of the run so far,
`ProtocolSafety` states what every run keeps, `ProtocolReasons` which request is refused and why,
`ProtocolLimits` which is throttled, `ProtocolLog` what is logged, and `ProtocolBooks` that dashboard, log
and outcomes agree. `Backend` puts the token issuer and its own check of each request behind the proxy.

**The objects.** `Stores`, `AuditLog`, `RateLimiter` and `Ja4Registry` hold the classes the source updates
in place, `Addon` the hooks over them. Every hook is proved to do to the objects exactly what `Protocol`'s
step does to their values, so the theorems about runs are about the objects too.

**The interleaving model.** `Interleaving` makes each method a store runs under its lock one atomic step,
for any number of requests in flight that share binding objects through a heap. The state machine's hooks
are proved to be among its interleavings. `InterleavingHistory` traces every forwarded request back to the
atoms that explain it.

**The audit pipeline.** `Json` is the canonical printer and a parser. `JsonGrammar` spells out every text a
document can be written as, `JsonSpelling` shows that the parser reads exactly those, `JsonRoundTrip` that
the printer writes the one canonical text among them, and `JsonFused` which values and texts survive the
round trip. `AuditLog` is the chain and its verifier, `AuditTamper` what the chain does and does not show,
`AuditFile` the mirrored file and its reader, `AuditTrail` the records the addon writes, `AuditReader` what
the file tells of the events, `AuditReport` the dashboard's counters recounted from the file. Nothing is
assumed about a hash function: a theorem that needs a digest to identify its input says so by exhibiting two
inputs with one digest, or an input that hashes to the genesis value. How Python reads a fractional numeral
is a parameter as well.

**The fingerprints.** `Ja4`, `Ja4Diff`, `Ja3`, `Ja4h` and `Strs` cover the strings that are hashed,
`Ja4Text` and `Ja3Text` what the fingerprints read, `Dpop`, `Policy` and `Engine` the decision.

`Scenario` holds the concrete runs that show a finding is reachable.

## What the proofs found

- `compare_digest` raises on text that is not ASCII, and the hook does not catch it. A request that needs
  step-up and answers an open challenge with such a nonce gets no answer, no row and no log entry, so its
  flow goes on (`Scenario.NonAsciiNonceRaises`), against line 47 of
  04_SECURITY_DESIGN_PRACTICES_Financial_API_Sentinel.md. `ProtocolSafety.RaisedIffIncomparable` says exactly when,
  `ProtocolSafety.UnansweredIff` exactly what goes on to the backend, and the theorems named `Ascii...` that
  nothing of the kind happens with readable tokens and ASCII nonces. A revocation whose JSON body is no
  object raises too (`ProtocolSteps.OtherRaisesIff`).
- `verify_chain` accepts exactly the lists that linking anew leaves as they are (`AuditTamper.IntactIff`).
  So it accepts a truncated log, and any entry rewritten with everything after it linked anew, the last
  entry being the shortest case (`AuditTamper.TruncationPasses`, `AuditTamper.RechainPasses`,
  `AuditTamper.LastRewritePasses`). What finds those out is a last hash kept elsewhere: from the first text
  that differs on, every stored hash does (`AuditTamper.LaterHashesDiffer`), and with the same last hash two
  intact lists have the same texts (`AuditTamper.WholeLogCommitment`), each up to a collision.
- Two lone surrogates that make a pair print like the joined character, so the canonical text is not
  injective (`JsonRoundTrip.PrintNotInjective`). In an object key that can move the key when the file is
  read back, and an untampered file is reported as altered (`AuditFile.UntamperedReported`);
  `AuditFile.FileVerifiesIff` is the exact condition, which the addon's own payloads meet
  (`AuditTrail.PayloadOk`).
- The backend's token expires when its lifetime has passed, the proxy's binding only when more than its
  lifetime has passed, counted from a reading no earlier: at the binding's last instant the proxy forwards
  what the backend refuses (`Backend.LastInstantDisagrees`, reached in `Scenario.LastInstantReached`). Where
  the binding was made later than the token, the gap is as long as that delay; `Backend.BackendAccepts` is
  the exact condition.
- A request that fetched a binding keeps the object. A revocation reaches it exactly when it met that very
  object as the store's current one (`Interleaving.RevocationReaches`), so a re-bind in between lets it pass
  (`Interleaving.ReboundTokenForwarded`); the backend's fresh jtis rule that out
  (`Interleaving.RevokedTokensStop`).
- The limiter reads the clock before it takes its lock. Readings out of order by some skew shorten the
  intervals its bound holds on by exactly as much: not one second longer for any limit above one, and not at
  all for a limit of one (`RateLimiter.SkewedBoundIff`, with `RateLimiter.LateReadingExceeds` for the proxy's
  own numbers).

## Model

| member | source | states |
|---|---|---|
| `Addon.SentinelAddon.constructor` | proxy/addon.py:72-109 | A fresh addon: empty stores, empty audit log, zero counters |
| `Addon.SentinelAddon.TlsClientHello` | proxy/addon.py:118-130 | The connection presents the JA4 of its latest ClientHello, and nothing if that did not parse |
| `Addon.SentinelAddon.Register` | proxy/addon.py:119-122 | A parsed ClientHello is remembered as the registry's newest record and touches no other store |
| `Addon.SentinelAddon.Request` | proxy/addon.py:154-286 | The hook changes the real stores exactly as the state machine's step says, answers the same, and keeps the audit log chained; a diff is shown only for a JA4 mismatch and is never empty |
| `Addon.SentinelAddon.Response` | proxy/addon.py:288-314 | The hook binds the issued token, shows and logs the issuance, exactly as the state machine's step says, or does nothing |
| `Addon.SentinelAddon.HandleRevoke` | proxy/addon.py:403-429 | Revocation flags the stored binding object, logs it, and answers 200, 400 or 404, or raises on a JSON body that is no object, as the state machine says |
| `Addon.SentinelAddon.BlockRequest` | proxy/addon.py:350-366 | An early rejection adds one row, one counted block and one log entry |
| `Addon.SentinelAddon.Resource` | proxy/addon.py:223-286 | From the binding lookup on, the object methods do what the state machine's step says |
| `Addon.SentinelAddon.Judge` | proxy/addon.py:243-286 | The step-up block over the real nonce store does what the state machine's step says |
| `Addon.SentinelAddon.MismatchDiff` | proxy/addon.py:235-241 | A diff is shown exactly when the registry still holds both fingerprints, and then it is not empty |
| `Addon.SentinelAddon.Note` | proxy/audit_log.py:70-83 | Every event the addon notes becomes exactly one appended, chained record |
| `AuditLog.AuditLog.Append` | proxy/audit_log.py:70-83 | Adds one entry linked to the last one, mirrors it as one line, keeps the whole list and file a function of the records appended |
| `AuditLog.VerifyChain` | proxy/audit_log.py:90-114 | Intact exactly when every entry links and hashes; otherwise the seq and reason of the first entry that does not, or an exception when that seq is no number |
| `AuditLog.VerdictIff` | proxy/audit_log.py:95-114 | The verdict on any list of entries: intact exactly when each names its predecessor's recorded hash, the first one sixty-four zeros, and carries its own; otherwise the seq, the count and the reason of the first that does not |
| `AuditLog.VerdictUnique` | proxy/audit_log.py:90-114 | The specified verdict is the only one: a list has no two |
| `AuditLog.ChainIntact` | proxy/audit_log.py:70-83 | Whatever is appended, the chain is intact and each seq is its position |
| `AuditTamper.SameTextIff` | proxy/audit_log.py:48-52 | Two entries are hashed from the same text exactly when each hashed field shows the same document: members in sorted order, surrogate pairs joined |
| `AuditTamper.WholeLogCommitment` | proxy/audit_log.py:90-114 | Two intact lists with the same last hash have the same text entry by entry, or two different texts hash alike, or a text hashes to the genesis value |
| `AuditTamper.PlainLogCommitment` | proxy/audit_log.py:90-114 | Without surrogate pairs the two lists are equal outright, under the same two escapes |
| `AuditTamper.IntactIff` | proxy/audit_log.py:90-114 | A list is accepted exactly when computing every link and hash anew changes nothing |
| `AuditTamper.BuiltIff` | proxy/audit_log.py:70-83 | The accepted lists whose seqs are their positions are exactly those a sequence of appends leaves |
| `AuditTamper.SameHashesBroken` | proxy/audit_log.py:95-112 | A list that keeps an intact log's recorded hashes is reported at the first entry whose digest changed |
| `AuditTamper.RewriteReported` | proxy/audit_log.py:95-114 | Editing ts, type or payload of entry k with its hashes kept is reported at seq k after k+1 entries exactly when the digest changes |
| `AuditTamper.RehashReported` | proxy/audit_log.py:95-114 | Editing an entry that is not the last and recomputing its hash is reported at seq k+1 exactly when the digest changes |
| `AuditTamper.DeletionReported` | proxy/audit_log.py:95-114 | Deleting an entry before the last is reported at the entry that took its place, or two texts collide, or a text hashes to the genesis value |
| `AuditTamper.InsertionReported` | proxy/audit_log.py:95-114 | The exact verdict on an inserted entry: at it, by its link or else its hash; at the entry behind it if it is linked and hashed; intact only if it carries the hash that stood there |
| `AuditTamper.SwapReported` | proxy/audit_log.py:95-114 | Swapping two entries is reported where the later one now stands, with its seq, or two texts collide, or a text hashes to the genesis value |
| `AuditTamper.AnyOtherHistoryBroken` | proxy/audit_log.py:95-114 | No list with another text but the same last hash verifies, up to a collision or a genesis preimage |
| `AuditTamper.TruncationPasses` | proxy/audit_log.py:90-114 | What the chain cannot see: every prefix of a built log still verifies |
| `AuditTamper.LastRewritePasses` | proxy/audit_log.py:90-114 | What the chain cannot see: a rewritten last entry with a recomputed hash still verifies |
| `AuditTamper.RelinkIntact` | proxy/audit_log.py:90-114 | What the chain cannot see: any list of entries, linked and hashed anew, verifies |
| `AuditTamper.RechainPasses` | proxy/audit_log.py:90-114 | What the chain cannot see: any entry rewritten and everything after it linked anew still verifies, with all earlier entries and all other contents kept |
| `AuditTamper.LaterHashesDiffer` | proxy/audit_log.py:95-112 | From the first text that differs between two intact lists on, every stored hash differs, up to a collision, so an anchored last hash shows it |
| `AuditFile.LoadEntries` | scripts/verify_audit_log.py:24-40 | The entries of all non-blank lines in order, whatever their fields hold, or the number of the first line that is not an entry |
| `AuditFile.FileRoundTrip` | scripts/verify_audit_log.py:29-40 | The file of any list loads line for line, each line to the entry of its position as read back |
| `AuditFile.FileRoundTripIff` | scripts/verify_audit_log.py:29-40 | The loaded entries equal the appended ones exactly when no string and no key holds a surrogate pair and every float reads back as itself |
| `AuditFile.FileVerifiesIff` | scripts/verify_audit_log.py:29-51 | The file of an intact log keeps its texts exactly when in every object joining surrogate pairs keeps the keys in order and every float reads back; then it verifies, otherwise not, or an old and a new text collide |
| `AuditFile.UntamperedReported` | scripts/verify_audit_log.py:29-61 | A payload whose untampered file is reported as altered at its entry, unless two texts collide |
| `AuditFile.LoadedIsPlain` | scripts/verify_audit_log.py:29-40 | No entry of any file, edited in any way, holds a surrogate pair |
| `AuditFile.TwoFilesCommit` | scripts/verify_audit_log.py:43-61 | Two files, edited in any way, that load, verify and end in the same hash hold equal entries, or exhibit a collision or a genesis preimage |
| `AuditFile.FromToDict` | proxy/audit_log.py:117-122 | Rebuilding an entry from its dictionary gives the entry |
| `AuditFile.KindIff` | scripts/verify_audit_log.py:31-37 | A line holds an entry exactly when it is, stripped, an object with the six members by name |
| `AuditFile.StripIff` | scripts/verify_audit_log.py:32 | What stripping leaves: the text between the white space at the ends |
| `AuditFile.LinesMeaning` | scripts/verify_audit_log.py:30-31 | Lines end at a line feed, a carriage return, the two together, or the end of the file |
| `AuditFile.HashReads` | proxy/audit_log.py:48-52 | What an entry is hashed from: the canonical text of its five other members by name |
| `AuditFile.LineReads` | proxy/audit_log.py:81-82 | What an entry's line holds: the canonical text of its six members by name, and a line feed |
| `AuditLog.GenesisIsZero` | proxy/audit_log.py:23 | The first link is the digest of thirty-two zero bytes |
| `AuditFile.WriteLoadVerify` | scripts/verify_audit_log.py:43-61 | Append any records, mirror, load, verify: as many entries as records, and intact for records that keep their text; otherwise reported, or two texts collide |
| `AuditTrail.PayloadOk` | proxy/addon.py:267-282 | Every payload the addon logs has ASCII keys and flat values and keeps its text through the file |
| `AuditTrail.EveryRunAudits` | proxy/addon.py:105-109 | The audit file of any run of the proxy loads to one entry per event; its texts are unchanged exactly when the fractional revocation stamps read back as themselves, and then it verifies |
| `AuditReader.TellsEvent` | proxy/addon.py:181-314 | A reader that goes by names and texts alone reads from an entry of the file every recorded part of its event, the reason and the score included |
| `AuditReader.FileTells` | proxy/addon.py:154-314 | Reading the audit file of any run tells its events: position, time, exactly the members of the event's kind, surrogate pairs joined |
| `AuditReport.EntryTells` | proxy/addon.py:181-282 | An entry read back from the file says what its event was: verdict, pass, rate limit, challenge |
| `AuditReport.CountersFromFile` | proxy/dashboard.py:63-85 | Counting the entries of the audit file of any run gives the dashboard's four counters |
| `Hashing.HexDigestInjective` | proxy/audit_log.py:52 | Equal hexadecimal digests are equal digests |
| `Hashing.HexDigestReads` | proxy/audit_log.py:52 | Two lower-case digits per byte, the high half first |
| `PyText.LeqIff` | proxy/audit_log.py:45 | The order keys are sorted in: a prefix comes first, otherwise the smaller code point where two strings first differ |
| `JsonGrammar.ReadText` | scripts/verify_audit_log.py:36 | Whatever white space, escapes and numerals a JSON text is spelled with, the reader reads it as what that spelling means, and no further |
| `JsonSpelling.ParseDocIff` | scripts/verify_audit_log.py:36 | A text shows a document exactly when it is one of the document's spellings by the grammar of RFC 8259 and Python's three constants |
| `JsonRoundTrip.PrintIff` | proxy/audit_log.py:44-45 | A text is the canonical one of a value exactly when it spells the value's document with no white space, each code unit in its one ASCII form, no superfluous minus: of all spellings there is one |
| `JsonFused.MembersInOrder` | proxy/audit_log.py:44-45 | What a dictionary prints as: each of its members once, by ascending keys, surrogate pairs joined |
| `JsonRoundTrip.JoinPairsIff` | proxy/audit_log.py:44-45 | What joining pairs yields: the one string of the same UTF-16 form that holds no surrogate pair |
| `JsonFused.DictIff` | scripts/verify_audit_log.py:36 | Of the members with one name the last counts |
| `JsonRoundTrip.ParsePrint` | proxy/audit_log.py:44-45 | For every value, parsing its canonical text yields the value with surrogate pairs joined in strings and keys, the last of two keys that join alike kept, floats as they read |
| `JsonRoundTrip.PrintEqualIff` | proxy/audit_log.py:44-45 | Two values, any at all, have the same canonical text exactly when it shows the same document |
| `JsonRoundTrip.PrintNotInjective` | proxy/audit_log.py:44-45 | Two different strings with one canonical text: the printer is not injective on lone surrogates |
| `JsonFused.RoundTripIff` | proxy/audit_log.py:44-45 | A value survives printing and parsing exactly when no string and no key in it holds a surrogate pair and every float reads back |
| `JsonFused.FusedTextIff` | proxy/audit_log.py:44-45 | A value read back has its old canonical text exactly when joining surrogate pairs keeps the keys of every object in order and every float reads back |
| `JsonFused.TextNotKept` | proxy/audit_log.py:44-45 | An object whose canonical text changes when it is written and read back |
| `JsonFused.ParsedIsPlain` | scripts/verify_audit_log.py:36 | Whatever text is parsed, no string and no key of the value holds a surrogate pair |
| `RateLimiter.SlidingWindowRateLimiter.CheckAndRecord` | proxy/rate_limiter.py:36-50 | The loop over the deque evicts, decides and records exactly as the specification functions say |
| `RateLimiter.WindowIsHistory` | proxy/rate_limiter.py:42-50 | Each deque is sorted and is a filter of the key's full attempt history, rejected attempts included |
| `RateLimiter.DequeAfterCall` | proxy/rate_limiter.py:42-50 | After a call the deque is exactly the key's attempts since now minus the window |
| `RateLimiter.AllowsIff` | proxy/rate_limiter.py:48-50 | Allowed exactly when fewer than the limit of the key's attempts lie in the window |
| `RateLimiter.IntervalBound` | proxy/rate_limiter.py:36-50 | No closed interval of window length holds more than the limit of allowed attempts of a key |
| `RateLimiter.SkewedBound` | proxy/rate_limiter.py:41-50 | When a key's readings may come out of order by a skew, as the clock is read before the lock, no interval shorter than the window by the skew holds more than the limit of allowed attempts; other keys' order does not matter |
| `RateLimiter.SkewedBoundIff` | proxy/rate_limiter.py:36-50 | For every limit, window, skew and width: the bound holds on all intervals of that width exactly when the width is at most the window less the skew, or at most the window when the limit is one, or the limit allows nothing |
| `RateLimiter.LateReadingExceeds` | proxy/rate_limiter.py:41-50 | The instance with the limiter's own numbers: a late reading with which a 30-second interval holds six allowed attempts |
| `RateLimiter.BurstStaysLimited` | proxy/rate_limiter.py:37-40 | Once the limit is used up, a burst with gaps that fit the window is rejected throughout |
| `RateLimiter.SilenceForgives` | proxy/rate_limiter.py:42-50 | After a silence longer than the window the next attempt is allowed |
| `Strs.SortCanonical` | proxy/ja4.py:116 | Sorting two lists gives the same result exactly when they hold the same strings as often |
| `Strs.JoinInjective` | proxy/ja4.py:91 | Joining with a separator that occurs in no part loses nothing |
| `Strs.SplitJoin` | proxy/ja3.py:77-83 | What was joined with a separator that occurs in no part splits into the parts again |
| `Ja4.TlsVersionCode` | proxy/ja4.py:65-87 | The nested loops compute the specified code for every list of extensions, cut-short bodies included |
| `Ja4.VersionCodeMeaning` | proxy/ja4.py:65-87 | The code is that of the greatest non-GREASE version offered over all extensions, the legacy field's exactly when there is none |
| `Ja4.PreimageIff` | proxy/ja4.py:116-124 | Two code lists have the same hashed text exactly when they are equal as multisets |
| `Ja4.Ja4Unordered` | proxy/ja4.py:95-135 | Any reordering of ciphers and extensions leaves every component unchanged |
| `Ja4.GreaseCipherInvisible` | proxy/ja4.py:101-102 | A GREASE cipher inserted anywhere changes no component |
| `Ja4.GreaseExtensionInvisible` | proxy/ja4.py:104-105 | A GREASE extension inserted anywhere, whatever its body, changes no component |
| `Ja4.GreaseVersionInvisible` | proxy/ja4.py:68-77 | A GREASE version inserted into a supported_versions body, cut-short bodies included, changes no component |
| `Ja4Text.Ja4Reads` | proxy/ja4.py:95-135 | What the JA4 of any ClientHello reads at each of its 36 places: the greatest version offered, the server name, the two capped counts, the ends of the first protocol, and the first twelve digits of the hashes of the sorted cipher and extension codes |
| `Ja4Diff.DiffJa4` | proxy/ja4.py:147-157 | The loop returns exactly the fields that differ, with both values |
| `Ja4Diff.DiffIff` | proxy/ja4.py:147-157 | Which of the seven fields a diff shows, field by field, each with both values |
| `Ja4Diff.MismatchShows` | proxy/ja4.py:147-157 | Two computed fingerprints with different JA4 strings always differ in a shown field |
| `Ja4Diff.Ja4EqualIff` | proxy/ja4.py:114-135 | Components that carry their own string have equal strings exactly when the five plain fields and both truncated hashes agree |
| `Ja4Diff.FingerprintsEqualIff` | proxy/ja4.py:95-135 | Two ClientHellos have the same JA4 exactly when version code, SNI presence, ALPN code and counts agree and the GREASE-free cipher multisets, and those of the extensions minus SNI and ALPN, are equal or exhibit a truncated-hash collision |
| `Ja4Diff.Ja4Determines` | proxy/ja4.py:114-135 | Equal JA4 strings mean equal components, or two preimages that hash alike in their first twelve digits |
| `Ja4Registry.Ja4Registry.Record` | proxy/ja4_registry.py:24-28 | The ordered dictionary stays the last 200 of the recency list of everything recorded |
| `Ja4Registry.Ja4Registry.Get` | proxy/ja4_registry.py:30-33 | The latest components of a key still held, and nothing otherwise |
| `Ja4Registry.LookupMeaning` | proxy/ja4_registry.py:24-33 | A key is found exactly when fewer than 200 other keys were recorded since, and then with its latest components |
| `Ja4Registry.RegistrySize` | proxy/ja4_registry.py:24-28 | The registry holds the smaller of 200 and the number of distinct keys |
| `Ja4Registry.MismatchDiff` | proxy/addon.py:235-241 | The diff for a mismatch exists exactly when both sides are held, and is never empty |
| `Ja3.ParseU16List` | proxy/ja3.py:38-52 | The index loop returns the specified elements for every body |
| `Ja3.ElementsMeaning` | proxy/ja3.py:49-52 | Exactly the elements that start before the declared end and lie within the body: the declared length counts rounded up to whole elements |
| `Ja3.CodecRoundTrip` | proxy/ja3.py:38-52 | A list parses back from its wire form, and from a form cut short its fully contained elements |
| `Ja3.ComputeJa3` | proxy/ja3.py:55-84 | The loop over the extensions hashes the specified string |
| `Ja3.Ja3PreimageIff` | proxy/ja3.py:61-83 | Equal JA3 preimages mean equal legacy version and equal GREASE-free lists in the order sent, and the other way round |
| `Ja3.ReorderingContrast` | tests/test_ja3.py:34-59 | Reordering extensions keeps JA4 and changes the JA3 preimage whenever the visible order changes |
| `Ja3.GreaseInvisible` | proxy/ja3.py:61-68 | GREASE ciphers and extensions do not reach the JA3 preimage |
| `Ja3Text.Ja3Reads` | proxy/ja3.py:55-84 | What the hashed string of any ClientHello reads: five parts, the legacy version and four lists in decimal, each in the order sent |
| `Ja3Text.ListsMeaning` | proxy/ja3.py:64-75 | The groups and formats are those of the last extension of their type, and none without one |
| `Ja3Text.NotGreaseMeaning` | proxy/ja3.py:61-69 | Reserved values are left out one by one, the order of the others kept |
| `Ja4h.VolatileInvisible` | proxy/ja4h.py:46-56 | Requests with the same stable headers have the same fingerprint |
| `Ja4h.InsertionInvisible` | proxy/ja4h.py:46-56 | Volatile headers inserted anywhere change nothing |
| `Ja4h.Ja4hEqualIff` | proxy/ja4h.py:37-56 | Two fingerprints are equal exactly when version part, cookie presence and capped count are, and the hashed name texts are equal or share a truncated hash |
| `Ja4h.Ja4hReads` | proxy/ja4h.py:37-56 | What the fingerprint of any request reads: version, cookie, capped count, and twelve digits of the hash of the stable names in the order and case sent |
| `Ja4h.StableMeaning` | proxy/ja4h.py:30-48 | The five volatile headers are left out whatever their case, the order of the others kept |
| `Policy.LoadsIff` | proxy/policy.py:52-92 | A mapping is accepted exactly when it is the mapping of a valid policy, and yields that policy |
| `Policy.RefusedIff` | proxy/policy.py:52-86 | Exactly why a mapping is refused: the first of the checks that it fails |
| `Dpop.NormalizeIff` | proxy/dpop.py:33-37 | Normalised URLs agree exactly for the same scheme, host and path up to trailing slashes |
| `Dpop.ValidIff` | proxy/dpop.py:62-110 | A proof validates exactly when it is genuine, and at that reading the library accepts it and it is fresh; then it yields its key and jti |
| `Dpop.ReasonIff` | proxy/dpop.py:62-110 | Exactly which reason a refused proof gets: the first check that it fails |
| `Dpop.ThumbprintDetermines` | proxy/dpop.py:40-46 | Thumbprints are equal exactly for keys whose members agree up to joined surrogate pairs, or for two canonical texts that hash alike |
| `Dpop.ThumbprintReads` | proxy/dpop.py:40-46 | What is hashed: the canonical text of the four required members by name |
| `Engine.PassIff` | proxy/engine.py:107-122 | PASS exactly when every hard signal holds and the risk is below the threshold; a revoked binding is always reported as revoked |
| `Engine.ReasonIff` | proxy/engine.py:110-122 | Exactly which reason each decision gives: revoked, proof, JA4, key, risk, in that order |
| `Engine.DecisionRecords` | proxy/engine.py:80-104 | What a decision records of request and binding, the risk as the sum of the weights of what changed |
| `Engine.EngineReasons` | proxy/engine.py:110-122 | With a valid proof the engine never gives a reason that belongs to the checks before it |
| `Engine.TierMonotone` | proxy/engine.py:84-90 | More soft deltas never lead to a more permissive tier under an accepted policy |
| `Engine.TierIff` | proxy/addon.py:246-250 | Forward, step-up and refuse each hold exactly on their band of risk |
| `Engine.HeaderShapeStable` | proxy/engine.py:77-84 | Requests that differ only in volatile headers get the same decision |
| `Stores.InMemoryBindingStore.Bind` | proxy/binding.py:74-86 | A fresh, unrevoked object replaces the token's binding and no other |
| `Stores.InMemoryBindingStore.Get` | proxy/binding.py:88-99 | Hands out the stored object itself, or evicts a binding past its lifetime |
| `Stores.InMemoryBindingStore.Revoke` | proxy/binding.py:111-117 | Flags exactly the stored object of that token; the dictionary and every other object are unchanged |
| `Stores.InMemoryBindingStore.CheckAndMarkDpopJti` | proxy/binding.py:119-133 | True exactly for an unseen proof, which is then seen |
| `Stores.InMemoryBindingStore.SeenDpopJti` | proxy/binding.py:101-105 | Says whether a proof was seen and changes nothing |
| `Stores.InMemoryBindingStore.MarkDpopJti` | proxy/binding.py:107-109 | Marks a proof as seen and changes nothing else |
| `Stores.ChallengeStore.Issue` | proxy/challenge_store.py:35-43 | The token's only outstanding challenge is the new one |
| `Stores.ChallengeStore.VerifyAndConsume` | proxy/challenge_store.py:45-62 | True exactly for the outstanding, unexpired ASCII nonce, which is then gone; raises exactly when an open challenge is compared and either text is not ASCII, changing nothing |
| `Stores.Dashboard.RecordDecision` | proxy/dashboard.py:114-155 | One counted verdict and one row at the end of the bounded deque |
| `Stores.Dashboard.RecordRawBlock` | proxy/dashboard.py:157-186 | One counted block and one row at the end of the bounded deque |
| `Stores.Dashboard.RecordIssuance` | proxy/dashboard.py:188-202 | One issuance at the end of its bounded deque, no counter touched |
| `Protocol.OutcomeAt` | proxy/addon.py:154-314 | A run's outcomes and states are those of its single hook calls |
| `ProtocolSteps.SeenEffect` | proxy/addon.py:211-213 | The replay set grows by exactly the proof of an accepted request, which was not in it |
| `ProtocolSteps.StashEffect` | proxy/addon.py:215-221 | Only a forwarded token request leaves something for its response |
| `ProtocolSteps.BindingEffect` | proxy/binding.py:74-117 | A binding appears by a bind, is flagged by a revoke, and otherwise at most expires |
| `ProtocolSteps.BindsIff` | proxy/addon.py:288-306 | Exactly which responses bind a token |
| `ProtocolSteps.RevokesIff` | proxy/addon.py:403-421 | Exactly which requests revoke a token |
| `ProtocolSteps.ForwardedIff` | proxy/addon.py:204-286 | Exactly which requests are forwarded from a given state |
| `ProtocolSteps.ChallengedIff` | proxy/addon.py:246-266 | Exactly which requests are challenged from a given state |
| `ProtocolSteps.NonceRaisesIff` | proxy/challenge_store.py:59 | Exactly which requests make the nonce comparison raise: step-up is needed, a challenge is open and in time, and it or the shown nonce is not ASCII |
| `ProtocolSteps.RaisedKeeps` | proxy/addon.py:251-266 | When that comparison raises nothing changes but that the proof counts as used: no row, no count, no log entry, no new nonce |
| `ProtocolSteps.OtherRaisesIff` | proxy/addon.py:403-414 | Exactly which requests make the hook raise before that, leaving every store as it was |
| `ProtocolSteps.ChallengeEffect` | proxy/addon.py:252-266 | A challenge is replaced by a new one, used up by a stepped-up request, and otherwise at most expires |
| `ProtocolHistory.Ja4History` | proxy/addon.py:129-130 | What a connection presents is the JA4 of its latest ClientHello |
| `ProtocolHistory.StashHistory` | proxy/addon.py:215-221 | What a flow has stashed is what its latest forwarded token request left |
| `ProtocolHistory.SeenHistory` | proxy/binding.py:119-133 | A proof is in the replay set exactly when an earlier request had it accepted |
| `ProtocolHistory.ChallengeHistory` | proxy/challenge_store.py:35-62 | A token's live challenge is its latest one, unless used up or expired |
| `ProtocolHistory.BindingHistory` | proxy/binding.py:74-117 | A token's live binding is its latest bind, revoked exactly when a revocation followed, gone exactly when too old |
| `ProtocolSafety.ForwardedIffJustified` | proxy/addon.py:204-286 | In any run a resource request is forwarded exactly when the history before it justifies it |
| `ProtocolSafety.ChallengedIffJustified` | proxy/addon.py:246-266 | In any run a request is challenged exactly when only the nonce is missing and nothing makes its comparison raise |
| `ProtocolSafety.RaisedIffIncomparable` | proxy/challenge_store.py:55-59 | In any run the nonce comparison raises exactly when step-up is needed and the nonce meets an open challenge it cannot be compared with |
| `ProtocolSafety.UnansweredIff` | proxy/addon.py:154-286 | A resource request goes on to the backend exactly when its token cannot be read, or it is justified and needs no step-up, or stepped up, or its nonce cannot be compared |
| `ProtocolSafety.AsciiNeverRaises` | proxy/addon.py:246-266 | With readable tokens and ASCII nonces no request makes the hook raise, but a revocation whose body is no object |
| `ProtocolSafety.AsciiUnansweredIff` | proxy/addon.py:154-286 | With readable tokens and ASCII nonces a resource request goes on to the backend exactly when it is forwarded |
| `ProtocolSafety.ForwardSafety` | proxy/addon.py:204-286 | A forwarded request has an earlier 200 issuance of its token to the same key and JA4 within the lifetime, no revocation or re-bind since, a proof never accepted before, and risk in the right band |
| `ProtocolSafety.StepUpSafety` | proxy/addon.py:251-256 | A stepped-up request carried the latest nonce of its token, ASCII and in time, and was the first to use it |
| `ProtocolSafety.ProofOnce` | proxy/binding.py:119-133 | No two accepted requests of a run carry the same proof jti |
| `ProtocolSafety.ChallengeOnce` | proxy/challenge_store.py:45-62 | No two stepped-up requests live off the same challenge |
| `ProtocolSafety.NonceOnce` | proxy/challenge_store.py:45-62 | With distinct issued nonces no nonce succeeds twice |
| `ProtocolSafety.StepUpCompletes` | proxy/addon.py:246-266 | A challenged token left alone can be retried in time with a fresh proof over the nonce, and is forwarded, or raises if that nonce is not ASCII |
| `ProtocolSafety.RevocationCloses` | proxy/binding.py:111-117 | After a revocation no request for the token is forwarded, challenged or compared until it is bound again |
| `ProtocolSafety.RevocationIsFinal` | backend/auth.py:43 | With tokens bound once, revocation is for good |
| `ProtocolSafety.StoredWasBound` | proxy/addon.py:298-306 | Every stored binding came from a bind and has a key, a JA4 and a source address |
| `ProtocolSafety.NoFingerprintNoForward` | proxy/addon.py:118-130 | A connection without a JA4 never gets a resource request forwarded, challenged or compared |
| `ProtocolReasons.BlockedIff` | proxy/addon.py:199-240 | Exactly which requests are blocked from a given state, and for which reason |
| `ProtocolReasons.BlockedIffRefused` | proxy/addon.py:154-286 | In any run a request is blocked for a reason exactly when the history before it gives that reason, the checks before the engine included |
| `ProtocolReasons.IssuanceIff` | proxy/addon.py:172-221 | In any run a token request is passed on exactly when its client is not throttled and its proof is good and new |
| `ProtocolReasons.BoundIff` | proxy/addon.py:288-308 | In any run a token is bound exactly by a good answer to the last token request passed on in its flow, if that had a key, a JA4 and an address |
| `ProtocolReasons.RevocationIff` | proxy/addon.py:403-429 | How a revocation is answered, by its body and what is stored; unless it revokes, nothing changes |
| `ProtocolLog.NextLog` | proxy/addon.py:154-314 | What one hook call adds to the log, by its outcome, request and state: which events, and every part of them |
| `ProtocolLog.LogIsHistory` | proxy/addon.py:154-314 | The log of any run is what its steps add, in order, every part of every event told by the history before the step |
| `ProtocolBooks.RecordOne` | proxy/dashboard.py:63-85 | One more log entry changes the dashboard drawn from the log exactly as recording it does |
| `ProtocolBooks.DashboardAgrees` | proxy/addon.py:267-282 | At every hook boundary counters, rows and issuances are those drawn from the audit log alone |
| `ProtocolBooks.RequestsConserved` | proxy/dashboard.py:244-250 | Each request but a revocation is in exactly one class, the hook raising being one, and the counters count the others |
| `ProtocolBooks.AsciiRequestsConserved` | proxy/dashboard.py:244-250 | With readable tokens and ASCII nonces that class is empty |
| `ProtocolLimits.WindowsHistory` | proxy/addon.py:175-176 | The limiter's state is the replay of the run's token requests |
| `ProtocolLimits.RateLimitedIff` | proxy/addon.py:172-188 | In any run a metered token request is rate-limited exactly when its client made at least five in the thirty seconds before; clients are JA4s, with none, the empty one and "unknown" as one |
| `ProtocolLimits.OtherClientsDoNotMatter` | proxy/addon.py:175 | A token request of one client never changes whether another client's is rate-limited |
| `ProtocolLimits.IssuanceThrottled` | proxy/addon.py:175-188 | In any run no client gets more than five token requests past the limiter in any 30-second interval |
| `Interleaving.ReplayAtMostOnce` | proxy/binding.py:119-133 | Under every interleaving no two requests pass the replay check with the same proof |
| `Interleaving.UsesAtMostIssues` | proxy/challenge_store.py:45-62 | Under every interleaving a token's nonce, or all its nonces together, are used no more often than issued |
| `Interleaving.RevokedIff` | proxy/binding.py:111-117 | A shared binding object is revoked exactly when a revocation met it as the store's current one |
| `Interleaving.RevocationReaches` | proxy/binding.py:88-117 | A request holding an object is refused as revoked exactly when a revocation met that object before the engine read it |
| `Interleaving.RevokedTokensStop` | proxy/binding.py:111-117 | With tokens bound once, every request evaluated after the revocation of its token is refused |
| `Interleaving.ReboundTokenForwarded` | proxy/binding.py:83-86 | Without that, a concrete interleaving forwards on the old object while the current binding is revoked |
| `Interleaving.RevokeView` | proxy/binding.py:111-117 | Flagging the shared object is flagging that token's binding and no other's |
| `Interleaving.HookIsAnInterleaving` | proxy/addon.py:154-286 | A token or resource request left alone, its proof valid or not, does to the stores what the whole hook does, and ends the same |
| `Interleaving.ResponseIsAnAtom` | proxy/addon.py:288-306 | The response hook is the atomic bind, or leaves the stores alone |
| `Interleaving.RevocationIsAnAtom` | proxy/addon.py:403-421 | A revocation is the atomic flagging, or leaves the stores alone |
| `InterleavingHistory.ForwardedBecause` | proxy/addon.py:211-286 | Under every interleaving a forwarded request has a bind of its token, was handed that very object within the lifetime, passed the engine on it with key, JA4 and risk as bound, and no revocation met the object before |
| `InterleavingHistory.SteppedUpBecause` | proxy/addon.py:251-256 | Under every interleaving a stepped-up request used the very nonce issued for its token, in time, with no challenge of the token issued or used in between |
| `InterleavingHistory.WindowsReplay` | proxy/rate_limiter.py:42-50 | Under every interleaving the limiter's windows are the replay of the attempts in the order of its lock |
| `InterleavingHistory.ThrottledUnderSkew` | proxy/rate_limiter.py:36-50 | Under every interleaving, readings out of order by at most a skew let at most five token requests of a client past in any interval shorter than 30 seconds by that much |
| `Backend.KeysAgree` | backend/auth.py:37-57 | In every reachable state of proxy and backend, token requests on which the hook raised included, each binding carries exactly its token's cnf.jkt and is no older than the token |
| `Backend.IssueIff` | backend/auth.py:37-57 | Exactly which proofs get a token, and what it holds |
| `Backend.AuthenticateIff` | backend/main.py:36-54 | Exactly which requests the backend authenticates, and as whom |
| `Backend.BackendAccepts` | backend/main.py:36-54 | A request under a genuine token that the proxy forwards, or raises on for its nonce, never fails the key comparison: it is authenticated exactly when token and proof are still valid |
| `Backend.LastInstantDisagrees` | proxy/binding.py:96 | At the last instant of a binding's life the proxy forwards what the backend already refuses |
| `Scenario.LastInstantReached` | backend/auth.py:45-50 | A reachable instance: a use of the token is forwarded up to its 300th second, and authenticated only before it |
| `Scenario.NonAsciiNonceRaises` | proxy/addon.py:251-266 | A run that challenges a request and raises on its retry with the nonce "é": no answer, no row, no count, no log entry, and the challenge stays |

## Left out

- Fractional clocks: the hooks, stores and limiter run on an integer clock, and one reading serves a whole hook, where the source reads the clock up to four times. The stamp of a revocation's log entry is a reading of its own and may be fractional.
- `default=str`: payload values outside JSON are not printed.
- AuditFile.LoadEntries: Python's limit on the digits of an integer it converts, and its recursion limit, are not modelled; lines that exceed them load here and stop the script.
- The dashboard rows hold the decision itself; the truncation of JA4 strings for display, the handshake details, the sophistication columns, the log lines and the listeners are not modelled.
- Cryptography: what PyJWT checks by itself, signature, required claims and a proof's own `exp`, `nbf` and future `iat`, is one predicate of the clock reading; SHA-256, MD5 and base64url are function parameters, tokens and proofs are records, and a proof brings the `repr` of its algorithm. Whether decoding a token raises anything but the library's own errors is a flag of the request.
- `urlsplit` and `str.upper` beyond ASCII: URLs come as their parts, only ASCII letters are folded.
- The fallbacks for unexpected exceptions in `evaluate` and `validate_dpop`: the modelled inner functions are total.
- What mitmproxy does with a flow whose hook raised: the model says that it has no answer.
- Randomness: nonces and jtis are parameters; distinctness is assumed only where a theorem says so.
- A token response's `jti` is text and the request path one of three routes: responses with a `jti` of another JSON type are not modelled.
- The YAML text and file reading of `load_policy`: it starts at the parsed mapping.
- Backend.BackendAccepts: the client's forged tokens appear only as tokens the backend did not issue.
- mitmproxy, Rich, Tornado, FastAPI, the file system, the web dashboard, handshake display, demo client scripts, certificates.
- Accounts and transfers: balances are floating-point.
