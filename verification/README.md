# brdns: a verified model

brdns is a filtering DNS resolver. A query arrives for an account; the account's ordered rules, a category index
built from blocklist feeds and per-window quotas decide whether it is forwarded or answered with a synthesized
block response. This project models the two halves of that program and proves what they keep.

**The wire codec and the block responses** (`Names`, `Buffers`, `Headers`, `Questions`, `Records`, `Packets`,
`PacketExactness`, `Blocking`, `WireGrammar`, `WireOctets`). `BytePacketBuffer` and `DnsPacket` are classes; every
read and write is proved against a pure denotation of section 4.1 of RFC 1035 (and section 2.2 of RFC 3596). What a
name spells is defined twice, by a reader and by a grammar of labels and pointers, and the two are proved equal. On top of it stand the
round trips, each with its exact condition, up to whole messages: an ASCII message of A, AAAA and CNAME records
reads back where it was written if and only if it is wire-safe. `WireGrammar` says what it means for a message of any
kinds of records to stand at an offset and proves that reading is that grammar; `WireOctets` spells out every octet
that is written, down to those of a block response. The block-response synthesizer (parse, edit,
print) is proved to preserve the query exactly when its question names are wire-safe.

**The policy engine** (`Calendar`, `Quota`, `RuleEngine`, `Categories`, `Blocklist`, `Blanks`, `FeedForms`,
`Storage`, `Policies`, `Ingestion`, `Pipeline`, `PipelineSafety`, `PipelineRuns`, `QuotaGuarantee`, `DecisionGuarantee`,
`MidScan`, `Handling`).
`Pipeline` is a state machine in which queries, replacements of rules and upstreams, account creation, the policy
refresher and index replacements interleave at their lock acquisitions and clock readings. One inductive invariant
covers all of it, and the theorems hold in every state of every run: budgets are never exceeded however stale the
cache, every query goes by one whole past policy of its account, ids are never reused, and no query gets stuck.
`Handling` proves the sequential program (`handle_inner`) and shows that its uninterrupted execution is a run of the
state machine.
`Calendar` defines the proleptic Gregorian calendar, which gives the calls into chrono their meaning, and proves it
to be the one that starts on Thursday, 1 January 1970 and goes on day after day and second after second.

Where the code and its documentation or intent differ, the model follows the code:

- `write_qname` of the root name, or of any name with an empty label, writes a zero octet too many; the exact
  round-trip conditions and `SynthesisExact` say what that costs (a query for the root gets a block response that
  does not parse as that reply).
- The reader takes length octets 0x40..0xBF as labels, which section 4.1.4 of RFC 1035 reserves
  (`ReservedLengthRead`, `StrictlyReadExactly`).
- MX, NS, TXT and unknown records are counted in the header but written as nothing, so a message that holds one
  does not parse on its own, however safe the rest of it (`SkippedMessageLost`).
- An ingestion whose merged map has as many domains as the index is skipped even when the domains differ
  (`PublishExact`, `EqualSizeSkipped`).
- The category lookup drops empty labels inside a name, a wildcard rule does not; they agree on a name whatever the
  index if and only if it has no empty label or is the root (`LookupAgreesExactly`).
- A `#` behind the hosts of a hosts line starts no comment, as it does in a plain line, so the domains a comment
  there names are listed as well (`HostsExact`).
- Each category rule of a scan asks the index anew, so a publication in mid-scan can let through a name that the old
  and the new index both deny (`MixedScanLetsThrough`). Exactly when the decision stays that of one of the two indexes
  can be told from the rules, the name and the indexes (`ReplacementKeepsDecisionExactly`).

Strings are modelled as the byte sequences of their UTF-8 encoding, collections as `seq`, `set` and `map` fields
that the methods reassign, errors as a `Result` with the reason. Clock readings are parameters.

Check with `dafny verify dfyconfig.toml --resource-limit 2000000`.

## Model

| member | source | states |
|---|---|---|
| Names.ReadRefinesGrammar | lib/buffer.rs:91-135 | reading a name succeeds exactly when some chain of labels and at most five pointers leads from the offset to a zero octet, and yields that chain's labels and the offset after its first pointer or zero |
| Names.SpellingUnique | lib/buffer.rs:98-128 | at most one chain of labels and pointers starts at an offset |
| Names.StrictlyReadExactly | lib/buffer.rs:103-127 | a name that is read is read the same by a reader that refuses the reserved lengths if and only if all its labels have at most 63 octets |
| Names.ReservedLengthRead | lib/buffer.rs:103-127 | a witness for every reserved length octet: one label of that many octets is read |
| Names.TextReadByTable | lib/buffer.rs:121-126 | the text read is that of the chain's labels joined by dots, every octet of it looked up in the two alphabets: a letter `A`..`Z` becomes the letter of the same place in `a`..`z`, every other octet stays |
| Names.CaseDoesNotMatter | lib/buffer.rs:98-127 | two names whose labels differ only in letter case, wherever they stand and through whatever pointers, are read as the same text |
| Names.DecompressionBound | lib/buffer.rs:91-135 | reading a name moves the cursor forward and not past the end, wherever pointers lead, and follows at most six times as many label octets and dots as the message has octets; for ASCII labels that is the length of the text |
| Names.WordOperators | lib/buffer.rs:78-81 | the 16-bit words read and written are the code's shifts, ors and masks |
| Names.EmittedLabelStands | lib/buffer.rs:162-174 | each label of a written name stands behind an octet with its length, and a zero behind the last |
| Names.NameRoundTrip | lib/buffer.rs:91-174 | at any offset, a written ASCII name reads back, text and cursor, if and only if its labels are 1..63 lowercase octets |
| Names.RootNameDoesNotRoundTrip | lib/buffer.rs:162-174 | the root name is written as two zero octets and read as one |
| Names.TextSurvives | lib/buffer.rs:91-174 | the text alone of a written ASCII name is read back if and only if the name is wire-safe or the root |
| Names.ShiftedNameDiffers | lib/buffer.rs:91-174 | read one octet early after a 1, an emitted name never spells itself |
| Buffers.BytePacketBuffer.ReadQname | lib/buffer.rs:91-135 | the cursor loop appends exactly the denoted name's text or fails for the denoted reason, and leaves the cursor where the denotation says, also after a failure |
| Buffers.BytePacketBuffer.WriteQname | lib/buffer.rs:162-174 | the writing loop lays down the name's encoding, or the labels before an over-long one and an error |
| Buffers.OverlayAppend | lib/buffer.rs:137-160 | consecutive writes are one write of the concatenation, whatever was preallocated |
| Buffers.OverlayWritten | lib/buffer.rs:137-179 | what `as_bytes` shows is what it showed before followed by the data written |
| Buffers.OverlayPatch | lib/protocol/record.rs:188-194 | patching a placeholder afterwards is the same as having written the right octets at once |
| Headers.HeaderLayout | lib/protocol/header.rs:83-106 | the parsed fields are the bits and words that section 4.1.1 of RFC 1035 numbers; codes above 5 become 0 |
| Headers.CodeNumbers | lib/protocol/header.rs:4-23 | the six response codes have the numbers 0 to 5 of RFC 1035, both ways |
| Headers.HeaderRoundTrip | lib/protocol/header.rs:83-129 | a written header reads back at any offset if and only if its opcode is below 16 |
| Headers.HeaderPrintsBack | lib/protocol/header.rs:14-129 | printing a parsed header restores its twelve octets if and only if the response code is at most 5 |
| Headers.WriteOperators | lib/protocol/header.rs:108-123 | both flag octets of the model are the code's 8-bit shifts and ors, including what an opcode of 16 or more spills onto the response flag |
| Headers.ReadOperators | lib/protocol/header.rs:86-98 | every field read from the flag octets is what the code's mask or shift gives |
| Questions.QueryTypeRoundTrip | lib/protocol/record.rs:15-39 | type numbers and types correspond, except `UNKNOWN` of a known number |
| Questions.TypeNumbers | lib/protocol/record.rs:15-39 | A, NS, CNAME, MX, TXT and AAAA have the numbers 1, 2, 5, 15, 16 and 28, both ways, and every other number is unknown |
| Questions.QuestionRoundTrip | lib/protocol/question.rs:15-27 | a written question reads back at any offset if and only if its name is wire-safe and its type canonical |
| Records.RecordRoundTrip | lib/protocol/record.rs:83-205 | a written record reads back at any offset if and only if it is an A, AAAA or CNAME record with wire-safe names |
| Records.SkippedRecordLost | lib/protocol/record.rs:196-201 | the other kinds are written as nothing and never read back |
| Records.RecordProgress | lib/protocol/record.rs:83-157 | every record read consumes at least eleven octets inside the message, though its data may run past the end |
| Records.CnameLength | lib/protocol/record.rs:183-195 | the patched RDLENGTH is the number of host octets that follow it if and only if that number is below 65536 |
| Records.ReadRecord | lib/protocol/record.rs:83-157 | the buffer read is the denotation of a record, kind by kind |
| Records.ReadTxt | lib/protocol/record.rs:135-146 | the nested loops read length-prefixed strings until the stated end is reached or passed |
| Records.WriteRecord | lib/protocol/record.rs:159-205 | the buffer write lays down the record's encoding and returns its size |
| Records.WriteCname | lib/protocol/record.rs:183-195 | placeholder, host and back-patch together write the sized encoding |
| Packets.PacketRoundTrip | lib/protocol/packet.rs:35-80 | a wire-safe packet is written and reads back, counted, with the cursor exactly at the end, at any offset |
| PacketExactness.PacketRoundTripExact | lib/protocol/packet.rs:35-80 | for ASCII packets of A, AAAA and CNAME records that round trip holds if and only if the packet is wire-safe |
| PacketExactness.SkippedMessageLost | lib/protocol/packet.rs:35-80 | a message that also holds a skipped kind, everything written being wire-safe, runs out of octets when it is parsed where it was written, at the end of the buffer |
| PacketExactness.RecordsValueBack | lib/protocol/packet.rs:45-53 | a record section read back with the same values leaves the cursor one octet late unless it is wire-safe, and never recovers |
| PacketExactness.QuestionsValueBack | lib/protocol/packet.rs:39-43 | a question section read back with the same values is wire-safe, or ends one octet short after a root question |
| Packets.ParsedPacketSize | lib/protocol/packet.rs:35-56 | a message that parses has at least 12 + 5 x questions + 11 x records octets, and its counts agree with its sections |
| Packets.DnsPacket.FromBuffer | lib/protocol/packet.rs:35-56 | the count-driven section loops compute the denotation of a message |
| Packets.DnsPacket.Write | lib/protocol/packet.rs:58-80 | the counts are overwritten with the section sizes modulo 65536, and the sections' encodings laid down in order |
| WireGrammar.TextIsGrammar | lib/protocol/record.rs:135-146 | TXT data is read exactly where length-prefixed strings stand up to the stated end, and is their octets as code points in UTF-8 |
| WireGrammar.QuestionIsGrammar | lib/protocol/question.rs:15-20 | a question is read exactly where a name, a type number and two more octets stand |
| WireGrammar.RecordIsGrammar | lib/protocol/record.rs:83-157 | a record of any of the seven kinds is read exactly where one stands: name, type number, ttl, stated length, and addresses, hosts, priority, strings or skipped octets |
| WireGrammar.MessageIsGrammar | lib/protocol/packet.rs:35-56 | a packet is read, ending at an offset, if and only if it stands there: a header, and one after another as many questions and records as its counts say |
| WireOctets.QuestionWritten | lib/protocol/question.rs:22-27 | a written question is its name, the two octets of its type, and 0, 1 |
| WireOctets.RecordWritten | lib/protocol/record.rs:159-205 | a written record is its name, type 1, 28 or 5, class 1, the four octets of the ttl, the two of the data's length, and the data |
| WireOctets.MessageWritten | lib/protocol/packet.rs:58-80 | a written message has the id, the flags and the four section sizes, and then the octets of its sections in order |
| Blocking.Synthesize | lib/blocking.rs:43-106 | parse, edit and print through the buffer is the specified reply |
| Blocking.SynthesisPreserves | lib/blocking.rs:43-106 | for wire-safe question names the reply re-parses to its end as the same id, opcode, flags and questions, as a response with the code and the at most one answer the policy mode dictates, and nothing else |
| Blocking.SynthesisIdempotent | lib/blocking.rs:43-106 | synthesizing from one's own output gives the same bytes |
| Blocking.SynthesisExact | lib/blocking.rs:43-106 | for ASCII question names the reply is such an answer if and only if they are wire-safe |
| WireOctets.SynthesisOctets | lib/blocking.rs:43-106 | every octet of every block response: the query's id, flags and questions, the response flag, code 3, 5 or 0, and for a null or custom policy an answer of type 1 or 28, class 1, ttl 60 with the address, of zeros unless custom |
| Calendar.NumberOfDate | lib/quota.rs:15-26 | every valid Gregorian date is the date of its day number |
| Calendar.TimestampRoundTrip | lib/quota.rs:16 | every timestamp, also before 1970, is that of its UTC time |
| Calendar.Epoch | lib/quota.rs:16 | timestamp 0 is 1970-01-01 00:00:00, a Thursday |
| Calendar.NextDay | lib/quota.rs:15-26 | the day after each day is the next of its month or the first of the next, by the table of month ends and the 4/100/400 rule, and the next weekday |
| Calendar.NextSecond | lib/quota.rs:16 | the second after each second: sixty to the minute and the hour, twenty-four hours to the day |
| Quota.WindowStartsAt | lib/quota.rs:4-26 | a window starts on the hour, at midnight, at the last midnight of a Monday, or at midnight of the first of the same month |
| Quota.WindowFloors | lib/quota.rs:15-26 | what each window start is in days and seconds |
| Quota.WindowContains | lib/quota.rs:15-26 | start <= now < start + length, for every timestamp and window kind |
| Quota.WindowsPartition | lib/quota.rs:15-26 | flooring is idempotent and monotone, windows abut, and instants share a start exactly when one lies in the other's window |
| Quota.WindowIsPeriod | lib/quota.rs:15-26 | instants share a start if and only if the calendar puts them in the same hour, day, Monday week or month |
| Quota.WindowsNest | lib/quota.rs:15-26 | hours nest in days, days in weeks and in months |
| Quota.TwoWindows | lib/quota.rs:15-26 | an interval no longer than the shortest window meets at most two windows |
| RuleEngine.EvaluateIsFirstMatch | lib/ruleengine.rs:49-74 | the decision is that of the least-index enabled match, and none exactly when there is no match |
| RuleEngine.EvaluateByFields | lib/ruleengine.rs:49-74 | the first enabled rule that hits decides by its fields: allow, deny, or a limit with its own id, count (0 when absent) and window (month when absent); without one nothing is decided |
| RuleEngine.AcceptsIsMatch | lib/ruleengine.rs:24-43 | what each kind of target matches, octet by octet up to letter case and final dots |
| RuleEngine.DomainIsLabels | lib/ruleengine.rs:32 | a domain target matches exactly the names with its labels, none below it |
| RuleEngine.MatchIgnoresCase | lib/ruleengine.rs:24-43 | neither the case of a name nor that of a target changes whether they match |
| RuleEngine.WildcardIsLabelSuffix | lib/ruleengine.rs:24-40 | string-suffix matching is label-list-suffix matching |
| RuleEngine.CoverageIsExact | lib/ruleengine.rs:30-43 | the coverage test holds if and only if every name the later target accepts is accepted by the wildcard |
| RuleEngine.DeadRule | lib/ruleengine.rs:49-74 | deleting a rule behind an enabled wildcard that covers it changes no decision |
| Texts.DottedSuffixIsLabelSuffix | lib/ruleengine.rs:39 | equal or ending in a dot and the suffix is the same as having the suffix's labels last |
| Categories.CategoryIndex.Contains | lib/categories.rs:23-35 | the label-dropping loop answers whether some ancestor is tagged |
| Categories.LookupIsScan | lib/categories.rs:23-35 | with canonical keys the hashed walk agrees with a scan of all keys as wildcards, for any name less its empty labels |
| Categories.LookupIsScanPlain | lib/categories.rs:23-35 | for a name without empty labels they agree outright |
| Categories.LookupAgreesExactly | lib/categories.rs:23-35 | walk and scan agree on a name for every canonical index and category if and only if the normalized name has no empty label or is the root |
| Categories.EmptyLabelDiverges | lib/categories.rs:26 | a witness: an index and a name with an empty label inside on which they differ |
| Categories.SubdomainsInherit | lib/categories.rs:22-35 | membership is closed under prepending labels |
| Blocklist.Sanitize | lib/blocklist.rs:236-258 | the stripping loop and the checks compute the sanitized domain |
| Blocklist.UsableIsFixed | lib/blocklist.rs:236-258 | the usable domains are exactly the fixed points of `sanitize`, and they are canonical index keys |
| Blocklist.ParseHostsLine | lib/blocklist.rs:200-212 | a hosts line adds the sanitized tokens after the first |
| Blocklist.ParseDomains | lib/blocklist.rs:176-186 | the line loop collects the union over the lines |
| Blocklist.FeedUsable | lib/blocklist.rs:176-258 | every parsed domain is a fixed point of `sanitize` and of the index's normalization |
| Blanks.SpaceIsWhite | lib/blocklist.rs:237 | what counts as white space is the UTF-8 encoding of one of the code points Unicode gives that property |
| Blanks.TrimBetween | lib/blocklist.rs:237 | trimming leaves what stands between two runs of white space |
| FeedForms.SanitizedExact | lib/blocklist.rs:236-258 | sanitizing gives a domain for exactly its spellings: between blanks, behind any number of `*.`, in any letter case, before any number of dots; and only if it has 1 to 253 of the letters, digits, dots, hyphens and underscores, with a dot and a letter |
| FeedForms.PlainExact | lib/blocklist.rs:188-198 | a plain line lists exactly the domain spelled before its first `#` |
| FeedForms.HostsExact | lib/blocklist.rs:200-212 | a hosts line lists exactly the domains its words spell, all but the first word, whatever white space separates them, and nothing if it starts with `#` |
| FeedForms.AdblockExact | lib/blocklist.rs:214-234 | an adblock line lists exactly the domain spelled between its two bars and the first `^`, `$` or `/` |
| FeedForms.AdblockOther | lib/blocklist.rs:214-234 | every other adblock line, comments and exceptions included, lists nothing |
| FeedForms.LineEnds | lib/blocklist.rs:178 | lines end in a newline or a carriage return and a newline, and the last need not end |
| FeedForms.FeedRoundTrip | lib/blocklist.rs:176-258 | printing usable domains as a feed of any format and parsing it gives back exactly them |
| Ingestion.Merge | lib/blocklist.rs:134-149 | the completion loop computes the merged map |
| Ingestion.MergedMeaning | lib/blocklist.rs:134-149 | the merged map holds exactly the listed domains, each with the union of the categories of feeds listing it |
| Ingestion.MergeOrderFree | lib/blocklist.rs:134-149 | it is the same for every completion order |
| Ingestion.FeedsToLookup | lib/blocklist.rs:134-157 | after publishing, a name is in a category if and only if some feed with it lists a domain matching the name |
| Ingestion.ListedDomainsFound | lib/blocklist.rs:134-157 | a listed domain without empty labels, and every name below it, is found |
| Ingestion.PublishExact | lib/blocklist.rs:151-158 | the index becomes the merged map if and only if the sizes differ or it already was that map |
| Ingestion.EqualSizeSkipped | lib/blocklist.rs:151-155 | two different maps of equal size: the second is not published |
| Ingestion.Ingest | lib/blocklist.rs:114-159 | store, index and ingestion time after merging and publishing, keeping store and index equal |
| Storage.InMemControlPlane.RecordQuota | lib/controlplane/storage/inmem.rs:100-118 | granted exactly below the limit, counting one more in the bucket of rule and window start |
| Storage.InMemControlPlane.ReplaceRules | lib/controlplane/storage/inmem.rs:132-157 | the numbering loop stores the new list under consecutive fresh ids and positions, each rule with the fields it was given, and leaves the account, its upstreams and all other accounts as they were |
| Storage.InMemControlPlane.ReplaceUpstreams | lib/controlplane/storage/inmem.rs:168-196 | the same for an account's upstreams |
| Storage.InMemControlPlane.Snapshot | lib/controlplane/storage/inmem.rs:221-236 | a snapshot has each account's rules and the first of its upstreams, or none |
| PipelineSafety.StepKeepsInv | lib/pipeline.rs:93-142 | every step of queries, replacements, refreshes and publications keeps the invariant |
| PipelineRuns.RunKeepsInv | lib/pipeline.rs:93-142 | the invariant holds in every state of every run |
| PipelineRuns.MomentReached | lib/controlplane/storage/inmem.rs:221-236 | every remembered state of the policies was the store's in some state of the run |
| PipelineRuns.RuleIdsNeverReused | lib/controlplane/storage/inmem.rs:136-148 | two rules stored at any times under one id are the same rule, with the same limit and window |
| PipelineRuns.AccountIdsNeverReused | lib/controlplane/storage/inmem.rs:58-77 | accounts never go away and their ids are never shared |
| PipelineRuns.RelockFindsAccount | lib/controlplane/storage/inmem.rs:132-196 | between the two locks of a replacement of rules or upstreams the account stays, under the same id, so the second lock always finds it |
| PipelineRuns.FreshRulesUnspent | lib/controlplane/storage/inmem.rs:136-148 | the ids a replacement hands out were never stored before and have nothing spent in any window |
| QuotaGuarantee.QuotaSafety | lib/controlplane/storage/inmem.rs:100-118 | in every state of every run the counter of a limit rule and window is the number of grants there, and neither it nor the number forwarded exceeds the rule's own `limit_count` |
| QuotaGuarantee.SlidingBound | lib/controlplane/storage/inmem.rs:107-117 | in any interval of 3600, 86400, 604800 or 28 x 86400 seconds a limit rule with that window forwards at most twice its own `limit_count` |
| QuotaGuarantee.ForwardsAreGranted | lib/pipeline.rs:117-129 | every forward by a limit rule has a grant for that once-stored rule, its window kind and the query's own clock reading |
| QuotaGuarantee.LockGrantsExactly | lib/controlplane/storage/inmem.rs:110-117 | in every run a query at the lock is granted exactly if fewer grants than the rule's own `limit_count` are on record for the bucket |
| QuotaGuarantee.NoBudgetNoGrant | lib/controlplane/storage/inmem.rs:107-109 | a limit rule without a positive count lets no query through |
| DecisionGuarantee.PolicyIsOneSnapshot | lib/pipeline.rs:105-108 | a query's rules are its account's complete stored list, and its upstream the account's active one, in one single earlier state |
| DecisionGuarantee.CacheNeverGoesBack | bin/s.rs:106-117 | successive cache reads are from states in order, under the one sequential refresher |
| DecisionGuarantee.ConsultedWasIndex | lib/pipeline.rs:105-108 | each check used the index of a state after the query's own cache read, and each check that of a later state than the one before |
| DecisionGuarantee.FirstMatchDecides | lib/pipeline.rs:107-141 | the deciding rule fired when checked, none before it did, and the outcome is one its decision allows |
| DecisionGuarantee.OutcomeByFields | lib/pipeline.rs:107-141 | the first rule to hit, each checked with its own index, allows, denies or limits as its action says, a limit lets through only with a positive count, and a name that no rule hits is allowed |
| DecisionGuarantee.DecisionIsEvaluate | lib/pipeline.rs:105-141 | while the index does not change from the query's cache read on, an interleaved scan ends as `evaluate` on the snapshot and that index |
| DecisionGuarantee.CacheWasRead | lib/pipeline.rs:101-105 | every query past its arrival read the cache in some step of the run |
| MidScan.ReplacementKeepsMatchExactly | lib/pipeline.rs:107-108 | in every run that goes on from a cache read with one replacement of the index, the deciding rule is one of the two first matches, if and only if the new index matches no earlier than the old one or, past its own match, next at the old one's |
| MidScan.ReplacementKeepsDecisionExactly | lib/pipeline.rs:107-108 | in all those runs the decision is `evaluate`'s on one of the two indexes, if and only if every rule that fires on the new index between the two first matches, and the first to fire from the old one on, decides as one of those two |
| MidScan.MixedMatchesExactly | lib/ruleengine.rs:49-74 | the same for the scan alone, over every place the replacement can fall |
| MidScan.MixedScanLetsThrough | lib/pipeline.rs:107-141 | a run from the start, with one replacement between the checks of two deny rules, that ends with a name allowed that both indexes deny |
| DecisionGuarantee.NeverStuck | lib/pipeline.rs:93-142 | the next step of every query in flight is enabled and lowers a lexicographic measure, the cache read first |
| Handling.QueryPipeline.HandleInner | lib/pipeline.rs:60-142 | the early returns compose to that treatment, under the account's cached policy and the index as it is |
| Handling.HandledIsTreated | lib/pipeline.rs:93-142 | outcome, answer and store of a query follow from the fields of the first cached rule that hits the name of its first question: a denied or exhausted query is answered by the synthesizer, every other goes as it came to the account's cached upstream or the fallback, and the bucket counts one more if and only if it had room |
| Handling.RefusalReads | lib/pipeline.rs:113-134 | a query refused, with wire-safe question names, gets back bytes that read to their end as the reply its policy dictates |
| Handling.QueryPipeline.Decide | lib/ruleengine.rs:49-74 | the scanning loop with early return is `evaluate` |
| Handling.HandledAloneIsARun | lib/pipeline.rs:93-142 | run without interruption, the steps leave the store and outcome of `HandleInner` and touch nothing else |
| Handling.ReplaceAlone | lib/controlplane/storage/inmem.rs:132-196 | the two locked halves of a replacement of rules or upstreams in sequence are the replacement as a whole |
| Handling.RefreshAlone | lib/policy.rs:31-43 | the two locked halves of a refresh in sequence install the store's policies |

## Left out

- Buffers.BytePacketBuffer.ReadQname: `from_utf8_lossy` and Unicode lowercasing of label octets from 0x80 are not modelled, reading keeps such octets as they are; nor is the part of the name already appended when a read fails, which every caller drops.
- Names.DecompressionBound: bounds the text only for ASCII labels; the lossy decoding turns a stray octet from 0x80 into three, so other text can be longer.
- Names.NameRoundTrip: stated for ASCII names, for the same reason.
- Names.TextSurvives: stated for ASCII names, for the same reason.
- Questions.QuestionRoundTrip: stated for ASCII names, for the same reason.
- Records.RecordRoundTrip: stated for ASCII names, for the same reason.
- PacketExactness.PacketRoundTripExact: stated for ASCII names, for the same reason; messages that hold a skipped kind are the subject of `SkippedMessageLost`.
- Blocking.SynthesisExact: stated for ASCII question names, for the same reason.
- `DnsHeader` and `DnsQuestion` are values, not objects: their in-place `read` becomes a returned value. The cursor after a failed question or record read is not stated; every caller drops the buffer then.
- The growable `Vec<u8>` is a `seq` field, so sharing of its storage is not modelled.
- The two publications of an ingestion (store, then index) are not interleaved with queries step by step; queries see any sequence of index replacements instead.
- `UpstreamPool`: a forward names the upstream it goes to, or the fallback; building and reusing transports is not modelled. The built-in preset list is a parameter.
- `PostgresControlPlane`: its behaviour lives in SQL.
- Receivers, transports, TLS, the management API, the command-line tools, configuration (`BlockPolicy::from_config`), metrics and logging.
- Fetching feeds over the network: downloads are parameters, failed ones included.
- Overflow of `usize`, `i64` and `i32` counters, lock poisoning, and timestamps outside chrono's range, which panic.
- The order in which hash maps are iterated, which nothing here depends on.
