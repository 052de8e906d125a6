# EmergentCTI: a verified model

This project models the decision logic of a threat-intelligence service that collects indicators
(addresses, domains, URLs, hashes), scores and marks them, and exports blocklists. Each module follows one
part of the service, in the form the code has there: classes where it changes fields or tables, loops with
invariants where it loops, functions and lemmas where it computes.

- **Extraction** (`OffsetMap`, `HostSpans`, `DotCollapse`, `UrlNormal`, `ScanPhases`, `Extraction`). A text is
  refanged, obfuscated dot runs inside hosts are collapsed, and six masked phases look for indicators. Two
  rewrites share one map back to the original, searched by bisection. The map is lossless, the hits are exactly
  those of the phases and never overlap, and every one is accounted for once.
- **Allowlist** (`AddressBlocks`, `AllowlistPolicy`, `Allowlist`). The policy is stated one entry at a time;
  the matcher's prefix index, range lists and label walk report exactly the same entries.
- **Markings and exports** (`Tlp`, `Exports`). The effective marking is FIRST TLP 2.0 with an extra
  "Unspecified"; the SQL aggregate is a join in a linear order. The export pipelines agree with each other, and
  every row is accounted for.
- **Scores** (`ScoreState`, `ScoreOps`, `ScoreDatabase`, `Ingest`, `Retention`). Every operation that writes a
  table behind `confidence_score` is a step of one state machine; the score stays the override, or the maximum
  of its inputs. Ingestion survives a crash at any batch, and the order of batches does not matter.
- **Concurrent imports** (`ReportImport`). Requests interleave statement by statement, down to the single SELECTs of
  a chunked look-up; every link is attributed, and counted, once.
- **Protocols and folds** (`AuditedDownload`, `SummarySanitizer`, `RefreshQueue`, `UsageReport`).
- **Shared** (`Wrappers`, `Observables`, `Texts`, `Sorting`, `StringOrder`).

Where a method is tied to a function that repeats its steps, its contract also says what the result is in plain
terms, by predicates that do not use that function (`IsScan`, `Released`, `StoredFromRows`, `IsSummary`, ...).

Check it with `dafny verify dfyconfig.toml` (Dafny 4.11).

## What is assumed

- Regular expressions are functions that return nonempty, sorted, disjoint matches without spaces
  (`Searches`, `Matches`). IDNA, `ipaddress`, Unicode tables, NFC and `str.lower` are functions with the laws
  stated in `Laws`, `AddressLaws`, `UnscopedLaws`, `NetworkLaws`, `LowerLaws`, `TrimLaws` and `LowerLaw`.
  `LawsCanHold` shows that the laws can be met, for URLs by a library that accepts one. The dot homoglyphs are
  those of section 3.1 of RFC 3490; URL authorities follow section 3.2 of RFC 3986; blocks follow section 3.1 of
  RFC 4632 and section 2.3 of RFC 4291.
- One SQL statement, or one committed transaction where a module says so, is one atomic step on maps with the
  (type, value) and (report, observable) unique keys. Text sorts by code point in the database. Clocks, uuids,
  faults, disconnects and the answers of other services are inputs.
- Confidences that callers submit are within 0..100, as the request schemas require. Decay settings are not
  bounded by the schemas; `SafeSettings` says which ones are harmless.

## Where the code and its description differ

- `x/128` and `x` name one address, but the matcher treats them differently when an exact entry names the same
  number under another IPv6 scope (`ScopedEntryDisagrees`); `HostBlockAgreesIff` gives the exact condition.
- `is_shareable` and `shareable_clause` disagree on a column holding the text "unspecified" for destination
  `internal` (`GatesAgree`). No stored marking has that text, so exports are unaffected.
- Summary strings are described as at most 256 characters. A `<TypeName>` string is never clipped
  (`LongTypeName`); `StringLimitExact` decides for every summary whether its result is within the limits.
- The JSON export withholds RED and allowlisted rows when it selects them and does not check them again when it
  loads them (`MarkedBetweenPasses`); `JsonExportSafeIff` gives the exact condition.
- The decay job is described as returning the number of observables whose effective confidence changed. It
  returns the number with a changed source (`DecayAll`, `DecayCountsUnchanged`); `DecayCountExact` says when the
  two are equal. After a lower re-sighting a decay can raise a source's confidence
  (`ResightingThenDecayRaises`); `DecayNeverRaisesIff` says for which sources it cannot.
- A first input may loosen an unmarked observable (`FirstInputLoosensIff`). Ingest is not independent of batch
  size (`BatchSizeMatters`), with `BatchSizeNeutralIff` and `BatchSizesAgreeIff` as the exact conditions.
  `normalize_hostname` is not idempotent (`NormalizeHostnameNotIdempotent`), with
  `NormalizeHostnameIdempotentIff` as the exact condition.

## Model

| member | source | states |
|---|---|---|
| OffsetMap.Refang | src/cti/services/ioc_extraction.py:194-214 | the substitution loop returns exactly the text, map and defang-dot set of substituting every match, left to right, whatever the matches are |
| OffsetMap.SubstituteLoop | src/cti/services/ioc_extraction.py:194-214 | the loop with its own cursors equals the recursive substitution after every match |
| OffsetMap.RefangMeaning | src/cti/services/ioc_extraction.py:194-214 | after refang the map is faithful: each match of the original is recorded with its replacement, everything between is unchanged, and the defang dots are exactly the recorded one-dot replacements |
| OffsetMap.RefangReplacement | src/cti/services/ioc_extraction.py:133-143 | a replacement is never empty and is either one dot or free of dots |
| OffsetMap.RefangTokens | src/cti/services/ioc_extraction.py:123-143 | in any letter case `hxxp`, `[://]` and `[:]` and nothing else stand for `http`, `://` and `:`; the three at-tokens stand for an at-sign and the dot tokens for a dot |
| OffsetMap.Lossless | src/cti/services/ioc_extraction.py:146-167 | putting every recorded slice back into the new text rebuilds the original exactly, for every faithful map |
| OffsetMap.FaithfulOrdered | src/cti/services/ioc_extraction.py:146-167 | the recorded intervals of a faithful map are sorted, disjoint and nonempty in the new text, which is what the bisections need |
| OffsetMap.DefangedIffOverlap | src/cti/services/ioc_extraction.py:189-191 | looking at one entry found by bisection decides whether any recorded defang overlaps the range, in both directions |
| OffsetMap.LookupRecorded | src/cti/services/ioc_extraction.py:169-187 | inside a recorded interval `start` and `end` give the two ends of its original slice |
| OffsetMap.LookupUnrecorded | src/cti/services/ioc_extraction.py:169-187 | at an unrecorded position both lookups point at the same character in the original |
| OffsetMap.LookupsMonotone | src/cti/services/ioc_extraction.py:169-187 | `start` and `end` are monotone over the whole text |
| OffsetMap.RangeMapsToRange | src/cti/services/ioc_extraction.py:169-187 | a nonempty range of the scanned text maps to a nonempty range inside the original |
| HostSpans.UrlHostSpan | src/cti/services/ioc_extraction.py:244-268 | the span found is exactly the host: between the first `://` and the next slash, question mark or hash, after the last at-sign, between brackets or before the port; none exactly when that is empty |
| HostSpans.Overlaps | src/cti/services/ioc_extraction.py:271-277 | the sweep's moving index never skips a blocked span that a later span can still meet, and the answer is true exactly when some blocked span overlaps |
| HostSpans.MergeSpans | src/cti/services/ioc_extraction.py:280-291 | merged spans are sorted, separated by gaps, and cover exactly the positions the given spans cover |
| HostSpans.EmailDomains | src/cti/services/ioc_extraction.py:294-328 | the emails kept are exactly those overlapping no URL, with their domain parts, in order |
| HostSpans.BareRuns | src/cti/services/ioc_extraction.py:294-328 | the domain runs kept are exactly those that avoid every URL and every free email, although the sweep only sees merged spans |
| HostSpans.CollapsibleHostSpans | src/cti/services/ioc_extraction.py:294-328 | the spans are exactly the URL hosts, the parts after the last at-sign of emails free of URLs, and the free domain runs, each described by its characters; no two of them overlap |
| HostSpans.ApartByCoverage | src/cti/services/ioc_extraction.py:280-291 | a span avoids a family of spans exactly when it avoids any family that covers the same positions, which is why merging is harmless |
| DotCollapse.ClassifyDotRun | src/cti/services/ioc_extraction.py:331-344 | a run is collapsed exactly when it holds a homoglyph dot or a defanged dot, and counts as a defang exactly when it holds a defanged one |
| DotCollapse.SpanRuns | src/cti/services/ioc_extraction.py:347-372 | within one span the runs found are exactly the maximal runs of two or more dots that are obfuscated, in order |
| DotCollapse.ObfuscatedDotRuns | src/cti/services/ioc_extraction.py:347-372 | over all host spans the runs are exactly the obfuscated maximal ones, sorted, none overlapping another |
| DotCollapse.DropOverlaps | src/cti/services/ioc_extraction.py:347-372 | for runs that pairwise are equal or apart, dropping keeps exactly the runs given and leaves them apart and in order |
| DotCollapse.DropOverlapsKeeps | src/cti/services/ioc_extraction.py:347-372 | runs that are already apart all survive the dropping, so the pass only removes overlaps |
| DotCollapse.Collapser.constructor | src/cti/services/ioc_extraction.py:375-393 | both cursors start at zero with nothing copied |
| DotCollapse.Collapser.CopyUntil | src/cti/services/ioc_extraction.py:394-408 | copying to a position moves text, substitutions and defangs exactly as the cursor specification says and leaves both inputs unread beyond it |
| DotCollapse.Collapser.CopySubs | src/cti/services/ioc_extraction.py:394-408 | every substitution before the position is consumed once; those the text cursor passed are moved by the right shift |
| DotCollapse.Collapser.Collapse | src/cti/services/ioc_extraction.py:409-421 | one run becomes one dot, recorded with the original slice of the whole run, and its inner substitutions are dropped |
| DotCollapse.CollapseEach | src/cti/services/ioc_extraction.py:375-421 | the runs are collapsed in order; every turn is one step of the cursor specification |
| DotCollapse.ApplyDotCollapses | src/cti/services/ioc_extraction.py:375-421 | the stacked rewrite is a complete pass of the cursor specification over all runs |
| DotCollapse.CollapsedTextKeeps | src/cti/services/ioc_extraction.py:375-421 | collapsing changes no character other than dots and removes at least one dot per run |
| DotCollapse.PassWritesText | src/cti/services/ioc_extraction.py:375-421 | the two-cursor copy writes exactly the text with each run replaced by one dot |
| DotCollapse.PassFaithful | src/cti/services/ioc_extraction.py:375-421 | the second map composed on the first is again faithful to the original text |
| DotCollapse.PassDefangs | src/cti/services/ioc_extraction.py:375-421 | after the pass an entry is a defang unless it is the dot of a run that held no defanged dot |
| DotCollapse.PassDefangsOrdered | src/cti/services/ioc_extraction.py:375-421 | the defangs of the new map stay sorted and disjoint, so they can still be searched by bisection |
| DotCollapse.PassRecordsDot | src/cti/services/ioc_extraction.py:375-421 | the dot of every run is recorded with exactly the slice of the original the run stood for |
| DotCollapse.CollapseObfuscatedHostDots | src/cti/services/ioc_extraction.py:424-442 | the runs collapsed are exactly the obfuscated maximal runs inside a host span, and text and map are those of one pass over them; without one both are returned unchanged |
| DotCollapse.CollapseUnique | src/cti/services/ioc_extraction.py:375-442 | collapsing has one result: the text, its map and the homoglyphs determine the runs, the new text and the new map |
| DotCollapse.PreparedTextLossless | src/cti/services/ioc_extraction.py:850-859 | after refang and collapse together, the final map rebuilds the original and only surplus dots were removed |
| UrlNormal.NormalizeUrlReparses | src/cti/services/ioc_extraction.py:535-561 | a normalized URL re-parses to the same scheme, userinfo, port and tail as the input, with only the host rewritten, for every host form |
| UrlNormal.NormalizeUrlIdempotent | src/cti/services/ioc_extraction.py:535-561 | normalizing a normalized URL changes nothing |
| UrlNormal.NormalizeUrlHostIdempotent | src/cti/services/ioc_extraction.py:509-529 | host normalization is idempotent for bracketed IPv6, dotted IPv4, IDNA and ASCII names and a trailing dot, and its result can be cut out again |
| UrlNormal.NormalizeDomainIdempotent | src/cti/services/ioc_extraction.py:454-470 | a normalized domain is its own normal form |
| UrlNormal.NormalizeDomainIff | src/cti/services/ioc_extraction.py:447-470 | a domain is accepted exactly when its lower-case form without one final dot is at most 253 characters of labels of 1 to 63 letters, digits and inner hyphens, has two labels and a top-level one, and passes the codec; the result is that form |
| UrlNormal.IdnaHostIff | src/cti/services/ioc_extraction.py:473-482 | an ASCII host is kept; any other is encoded exactly when it and its labels fit the lengths of a name and the codec takes it |
| UrlNormal.NormalizeUrlHostIff | src/cti/services/ioc_extraction.py:509-529 | a host is accepted exactly as a bracketed IPv6 address, an IPv4 address of digits and dots, or a name whose IDNA form is a domain, each with its own normal form |
| UrlNormal.NormalizeUrlIff | src/cti/services/ioc_extraction.py:535-561 | a URL is accepted exactly when it is written with one of four schemes in any case, optional userinfo, a host that normalizes, and a port; the result is the rest as written around the normal host |
| UrlNormal.PortIff | src/cti/services/ioc_extraction.py:532-557 | of the decimal numbers exactly those up to 65535 are ports |
| UrlNormal.DomainHost | src/cti/services/ioc_extraction.py:450-470 | a normalized domain has no delimiter, no leading bracket and is not made of digits and dots, so it cannot be taken for an address |
| UrlNormal.SplitUrlInverse | src/cti/services/ioc_extraction.py:535-561 | splitting a printed URL gives back the parts it was printed from |
| UrlNormal.AuthorityEndExact | src/cti/services/ioc_extraction.py:535-561 | the three separate searches for the end of the authority find the first of the three delimiters |
| ScanPhases.Scan | src/cti/services/ioc_extraction.py:635-859 | the six phases take turns on the text with all earlier finds blanked, and each reports from left to right exactly the ranges that a match deserves by its characters and defangs, with the one right verdict; on the original text too every hit has it: IPv4 valid exactly when parsed, hashes by length and variety, `non_public_ip` exactly when it is, a domain ending like a file exactly when a defang overlaps it |
| ScanPhases.ScanHitsExact | src/cti/services/ioc_extraction.py:850-859 | the first n phases (all six for a scan) report a hit exactly when one of them makes it of a regex match on the text in which everything reported before is blank |
| ScanPhases.MatchHitIff | src/cti/services/ioc_extraction.py:646-847 | a match becomes a hit of a range exactly when the characters of the range and around it deserve it, phase by phase, and of the phase's type |
| ScanPhases.NameHitIff | src/cti/services/ioc_extraction.py:821-832 | a domain run is reported exactly when it has two labels, its last one is shaped like a top-level domain, and, if that is a file extension, some recorded defang overlaps the run |
| ScanPhases.MatchVerdict | src/cti/services/ioc_extraction.py:646-847 | value, validity and warnings of a hit are those its characters call for, phase by phase |
| ScanPhases.VerdictUnique | src/cti/services/ioc_extraction.py:646-847 | a range has one right verdict in a phase, so ranges and verdicts determine the hits |
| ScanPhases.EarnedIff | src/cti/services/ioc_extraction.py:646-847 | a phase makes exactly the hits whose range a match deserves and whose verdict is right |
| ScanPhases.ScanIsInTurn | src/cti/services/ioc_extraction.py:850-859 | URLs, emails, IPv6, IPv4, hashes and domains in this order, each on what the earlier ones leave of the text, and nothing else |
| ScanPhases.ScanVerdicts | src/cti/services/ioc_extraction.py:646-859 | every verdict is also right on the text as it was before anything was blanked |
| ScanPhases.MaskTwice | src/cti/services/ioc_extraction.py:618-632 | masking phase by phase is masking everything found so far at once |
| ScanPhases.RunPhase | src/cti/services/ioc_extraction.py:646-847 | a phase returns the hits of its matches in order, and the spans to mask |
| ScanPhases.Mask | src/cti/services/ioc_extraction.py:618-632 | the masked text has a space at exactly the positions the spans cover, has the same length, and is otherwise unchanged, for overlapping spans too |
| ScanPhases.PhaseHitSpaceFree | src/cti/services/ioc_extraction.py:646-847 | a hit covers a nonempty range without spaces, so it cannot touch what an earlier phase masked |
| ScanPhases.PhaseApartFromBlanked | src/cti/services/ioc_extraction.py:850-859 | the hits of a phase avoid everything blanked before it |
| ScanPhases.MaskKeepsBlanks | src/cti/services/ioc_extraction.py:618-632 | masking keeps the earlier blanks and blanks every hit of the phase |
| Extraction.PreparedDots | src/cti/services/ioc_extraction.py:217-230 | ASCII text is kept; in any other exactly the three dot homoglyphs become dots, their positions are recorded, and nothing else changes after composing |
| Extraction.ScanText | src/cti/services/ioc_extraction.py:850-859 | the text scanned is the refanged text with exactly its obfuscated host dot runs collapsed, its map is lossless, and the hits are exactly those of the six phases on it, disjoint and nonempty |
| Extraction.ScanOne | src/cti/services/ioc_extraction.py:877-895 | one text is scanned within the remaining budget, applied again after normalization, and all hits of its prepared part are found; the cut flag is set exactly when a character of the text or of its prepared form does not fit |
| Extraction.ScanAll | src/cti/services/ioc_extraction.py:872-895 | every text is scanned within what the earlier ones left of 2,000,000 characters, with all its hits, and the truncation flag is set exactly when one of them did not fit |
| Extraction.UncutAreWhole | src/cti/services/ioc_extraction.py:877-893 | when no text was cut, what was scanned of each is its whole prepared form |
| Extraction.ScansDetermined | src/cti/services/ioc_extraction.py:865-895 | the texts determine what was scanned, mapped and found: two logs that meet the contract of the scan are equal |
| Extraction.EmptyScan | src/cti/services/ioc_extraction.py:878-882 | skipping a text once the budget is used up is scanning the first zero characters of it |
| Extraction.AccumulateHits | src/cti/services/ioc_extraction.py:897-923 | the dictionary after the loop is the fold over all hits, and keys keep their first-seen order |
| Extraction.AccumulateScans | src/cti/services/ioc_extraction.py:872-923 | the dictionary over all texts is the fold over the whole log of hits |
| Extraction.AccumulateAllMeans | src/cti/services/ioc_extraction.py:897-923 | for every key of the log and no other the dictionary holds its number of hits, its first record and an earliest one |
| Extraction.KeyOrderExact | src/cti/services/ioc_extraction.py:897-923 | the entries have distinct keys, exactly those of the hits |
| Extraction.TotalIsLog | src/cti/services/ioc_extraction.py:897-923 | occurrences over all keys sum to the number of hits: every hit is counted once |
| Extraction.LogWellPlaced | src/cti/services/ioc_extraction.py:897-923 | every recorded range is a nonempty slice of its source text |
| Extraction.LogExact | src/cti/services/ioc_extraction.py:896-912 | the log has one record for each hit of each text, in order, with its key, verdict, place in the source and whether a recorded defang overlaps it |
| Extraction.SortedIsInOrder | src/cti/services/ioc_extraction.py:946 | sorted candidates are in alphabetical order of type name, then of value, compared at the first difference |
| Extraction.CandidateVerdict | src/cti/services/ioc_extraction.py:901-945 | a candidate's validity and warnings are those of a hit of its key, and right on the text that was scanned |
| Extraction.EarliestChosen | src/cti/services/ioc_extraction.py:925-929 | sorting by position and cutting keeps 1000 distinct keys, none of which starts after a dropped one |
| Extraction.ChooseKeys | src/cti/services/ioc_extraction.py:925-929 | at most 1000 keys are kept, all of them when there are no more |
| Extraction.Extract | src/cti/services/ioc_extraction.py:865-947 | the scans hold all hits of the phases on every text within the budget; candidates have distinct keys in order of type name and value, each with its number of hits, the slice and defang state of its earliest hit, and the verdict of its first one, which is right on the text scanned; the 1000 earliest are kept, and truncated is set exactly by the two limits; without it every text is scanned whole and every hit counted |
| AddressBlocks.InBlockIsInterval | src/cti/services/allowlist_service.py:217-219 | shifting right and left hits a stored network exactly when net <= v < net + 2^s |
| AddressBlocks.OverlapsIffShared | src/cti/services/allowlist_service.py:231-235 | the four end-point tests of `overlaps` hold exactly when some address lies in both blocks |
| AddressBlocks.HostBlock | src/cti/services/allowlist_service.py:207-237 | a block of full prefix length holds exactly its own address |
| AllowlistPolicy.StripIdempotent | src/cti/services/allowlist_service.py:45-50 | stripping is idempotent and its fixed points are the strings without outer white space |
| AllowlistPolicy.NormalizeHostnameNotIdempotent | src/cti/services/allowlist_service.py:45-50 | normalization alone is not idempotent: a second trailing dot, or white space before the trailing dot, goes only the second time |
| AllowlistPolicy.NormalizeHostnameIdempotentIff | src/cti/services/allowlist_service.py:45-50 | normalizing a value again changes nothing exactly when its trimmed lower-case form has no dot and no white space right before its trailing dot |
| AllowlistPolicy.AcceptedDomainIsNormal | src/cti/services/allowlist_service.py:53-76 | an accepted bare domain is trimmed, lower-case, without a trailing dot, and normalizes to itself |
| AllowlistPolicy.CheckLabelsIff | src/cti/services/allowlist_service.py:65-71 | the label check passes exactly when every label has 1 to 63 characters |
| AllowlistPolicy.BareDomainIff | src/cti/services/allowlist_service.py:53-76 | a value is accepted as a domain exactly when its normal form has 1 to 253 printable characters without white space, none of seven that a URL, port, address or pattern needs, labels of 1 to 63, and is no address |
| Texts.Utf8Exact | src/cti/services/allowlist_service.py:87-94 | a character takes the fewest bytes that can carry it, and a string as many as its parts |
| AllowlistPolicy.AllowsIffCovers | src/cti/services/allowlist_service.py:193-247 | read by type of observable or by kind of entry the policy is the same: an exact entry covers its own normal form, a suffix itself and the names below it, a block what has an address in common with it |
| AllowlistPolicy.CanonicalizeIdempotent | src/cti/services/allowlist_service.py:79-141 | canonicalizing an accepted entry again, with its own type, gives the same entry, for every kind |
| AllowlistPolicy.OwnEntryAllows | src/cti/services/allowlist_service.py:79-141 | an entry canonicalized from an observable's own value and type allows that observable, for every kind |
| AllowlistPolicy.SubdomainsAllowed | src/cti/services/allowlist_service.py:239-247 | a suffix entry that allows a host allows every name below it |
| AllowlistPolicy.RangeIffSomeAddress | src/cti/services/allowlist_service.py:221-237 | a stored entry suppresses a range exactly when it allows some single address inside it |
| AllowlistPolicy.HostBlockIff | src/cti/services/allowlist_service.py:207-237 | an entry suppresses x/32 or x/128 exactly when it allows x or is an exact entry for x under another scope |
| AllowlistPolicy.ScopedEntryDisagrees | src/cti/services/allowlist_service.py:207-237 | the exact entry fe80::1%eth0 suppresses fe80::1/128 but not fe80::1 |
| Allowlist.Matcher.constructor | src/cti/services/allowlist_service.py:154-187 | after the loop every dictionary, the prefix index and the range lists hold exactly what the entries put there |
| Allowlist.Matcher.Add | src/cti/services/allowlist_service.py:167-187 | one more entry keeps all indexes exact |
| Allowlist.Matcher.Store | src/cti/services/allowlist_service.py:167-187 | the dictionary writes for one entry change exactly its own slots |
| Allowlist.Matcher.Match | src/cti/services/allowlist_service.py:193-202 | the ids reported are, as a multiset, those of exactly the entries whose policy covers the observable, in both readings of the policy |
| Allowlist.Matcher.MatchIp | src/cti/services/allowlist_service.py:207-237 | addresses and ranges go through different structures and both give exactly the entries of the policy; text that is neither matches nothing |
| Allowlist.Matcher.MatchAddress | src/cti/services/allowlist_service.py:214-220 | one probe per prefix length reports exactly the exact entries plus every block containing the address, once each |
| Allowlist.ProbeAll | src/cti/services/allowlist_service.py:217-220 | probing the index in any order adds up every block that contains the address |
| Allowlist.Matcher.MatchRange | src/cti/services/allowlist_service.py:228-237 | the two list scans report exactly the entries that share an address with the range |
| Allowlist.Matcher.MatchDomain | src/cti/services/allowlist_service.py:239-247 | the exact look-up and the label loop report exactly the entries equal to the host or a dot-boundary suffix of it, once each |
| Allowlist.SuffixIdsMean | src/cti/services/allowlist_service.py:243-246 | one look-up per label boundary finds every suffix entry at a boundary, each once |
| Allowlist.AtLabelStep | src/cti/services/allowlist_service.py:243-246 | the names joined from later labels are exactly the proper dot-boundary suffixes, and none equals the whole |
| Allowlist.LabelsJoin | src/cti/services/allowlist_service.py:243-246 | splitting at dots and joining again gives the host, and no label holds a dot |
| Allowlist.AllProbed | src/cti/services/allowlist_service.py:216-220 | the prefix lengths in the index are all that any entry can need |
| Allowlist.Matcher.IsAllowlisted | src/cti/services/allowlist_service.py:204-205 | true exactly when some entry allows the observable |
| Allowlist.Matcher.FilterValues | src/cti/services/allowlist_service.py:314-320 | the values kept are exactly those no entry allows, in order |
| Allowlist.RangeAllowlistedIff | src/cti/services/allowlist_service.py:207-237 | a range-valued indicator is allowlisted exactly when some single address inside it is, over any stored entries |
| Allowlist.HostBlockAgreesIff | src/cti/services/allowlist_service.py:207-237 | x/32 (x/128) and x report the same entries exactly when no exact entry names x under another scope |
| Allowlist.Ipv4HostBlockAgrees | src/cti/services/allowlist_service.py:207-237 | for IPv4 x/32 and x always report the same entries |
| Tlp.MoreRestrictiveIsJoin | src/cti/services/tlp.py:70-90 | merging manual markings is commutative, associative and idempotent, downgrades neither side, and is the least such marking |
| Tlp.MoreRestrictiveExact | src/cti/services/tlp.py:84-90 | two manual markings merge to the stricter one, and a missing one to the other |
| Tlp.SortableOrder | src/cti/services/tlp.py:147-155 | the rank-prefixed strings order as the ranks do, with Unspecified lowest, and below "2" means below AMBER |
| Tlp.EffectiveSqlIsJoin | src/cti/services/tlp.py:176-231 | the CASE over MAX on the feeds x reports outer join equals the join of all inputs in CLEAR < GREEN < Unspecified < AMBER < AMBER+STRICT < RED, for any numbers of feeds and reports, with the override on top |
| Tlp.EffectiveExact | src/cti/services/tlp.py:176-231 | the override decides; without one the marking is RED, AMBER+STRICT or AMBER if some input is, else unspecified if some feed or report has none or nothing is known, else GREEN, else CLEAR |
| Tlp.CrossContains | src/cti/services/tlp.py:219-226 | the outer join holds exactly the pairs of a feed side and a report side |
| Tlp.UnspecifiedIffNullInput | src/cti/services/tlp.py:204-209 | the MAX of the unspecified flag is 1 exactly when some input is NULL |
| Tlp.GatesAgree | src/cti/services/tlp.py:101-125 | the Python gate and the SQL clause agree except on the column text "unspecified" for destination internal |
| Tlp.MayLeaveIffAllowed | src/cti/services/tlp.py:101-113 | a row may leave exactly when its effective marking is in the destination's set; an unknown destination gets nothing |
| Tlp.DestinationsExact | src/cti/services/tlp.py:48-113 | public gets CLEAR alone, community and external AI what is below unspecified, that is CLEAR and GREEN, internal everything but RED, and any other destination nothing |
| Tlp.AllowedIsDownSet | src/cti/services/tlp.py:46-53 | every destination's allowed set is closed downwards in the order |
| Tlp.RedNeverLeaves | src/cti/services/tlp.py:101-113 | an effective RED row may leave to no destination |
| Tlp.AddInputNeverLoosens | src/cti/services/tlp.py:176-231 | for an observable with an input and no override, one more feed, report or manual marking never enlarges where it may go |
| Tlp.FirstInputLoosensIff | src/cti/services/tlp.py:176-231 | a new feed, report or manual marking opens a destination exactly when it is CLEAR or GREEN and the observable has no override and no other input |
| Tlp.FirstInputDecides | src/cti/services/tlp.py:176-231 | without an override a first input becomes the effective marking |
| Tlp.LoosensBelowUnspecified | src/cti/services/tlp.py:176-231 | a first input opens a destination exactly when the effective marking falls below Unspecified |
| Tlp.FilterForExternalAi | src/cti/services/tlp.py:339-362 | the loop keeps, in order, exactly the items that still exist and are CLEAR or GREEN |
| Tlp.OnlyClearAndGreenReachAi | src/cti/services/tlp.py:339-362 | an item reaches the model exactly when it exists and is CLEAR or GREEN |
| Exports.CollectValues | src/cti/services/observable_service.py:788-804 | the streaming loop returns the values that pass, deduplicated in value order only, and counts the suppressed rows |
| Exports.WithheldCounts | src/cti/services/observable_service.py:706-729 | each withheld row is counted once: under the allowlist, or under its own marking |
| Exports.ExportValues | src/cti/services/observable_service.py:753-809 | for each destination the values are exactly those of rows that meet the filters, are not allowlisted, can be written on one line if need be, and have one of the markings it receives; newest first, or once each in value order; what is left out is counted by cause and marking, and nothing is lost or counted twice |
| Exports.ReleasedIffExportable | src/cti/services/observable_service.py:529-568 | the query's filters, the allowlist and the marking gate together release exactly the rows that meet each condition in its plain form |
| Exports.Conservation | src/cti/services/observable_service.py:753-809 | rows that pass the filters split into exportable, allowlisted and held back, without overlap |
| Exports.ExportedMembers | src/cti/services/observable_service.py:753-809 | a value is exported exactly when some row with it passes filters, allowlist, line safety and marking |
| Exports.MarkingsPartition | src/cti/services/observable_service.py:706-729 | the per-marking counts add up to the rows held back |
| Exports.ShareableIffMayLeave | src/cti/services/tlp.py:101-125 | on stored rows the SQL clause agrees with the Python gate, and a shareable row is never RED |
| Exports.RedNeverExported | src/cti/services/observable_service.py:753-809 | an exported value comes from a row that is not RED and not allowlisted |
| Exports.GetCandidates | src/cti/services/observable_service.py:571-602 | the cached list is the distinct line-safe values of the matching rows, in order |
| Exports.ApplyBlocklistPolicy | src/cti/services/observable_service.py:605-655 | whatever the candidates, the served values are those, in order, whose current row exists, is not allowlisted and may leave; the rest that pass the allowlist are counted |
| Exports.CurrentMarkings | src/cti/services/observable_service.py:631-642 | looking markings up in chunks of distinct candidates finds the current marking of exactly those that have a row |
| Exports.BlocklistAgrees | src/cti/services/observable_service.py:571-655 | on one state the blocklist path and the streamed path in value order give the same list and withhold equally many |
| Exports.PickIds | src/cti/services/observable_service.py:836-847 | stopping early picks the first `limit` ids of the ordered eligible rows |
| Exports.LoadRows | src/cti/services/observable_service.py:849-861 | the chunked reload returns the selected rows that still exist, in the selected order |
| Exports.ExportJson | src/cti/services/observable_service.py:812-861 | the limited export is the first `limit` eligible rows, minus those deleted between the passes; with nothing edited it is the newest rows the destination may have, and what is left over is older than all of them |
| Exports.JsonExportNeverRed | src/cti/services/observable_service.py:812-861 | when nothing changes between the passes, no row of the JSON export is RED, out of bounds for the destination, or allowlisted |
| Exports.JsonExportSafeIff | src/cti/services/observable_service.py:848-861 | whatever markings, deletions and allowlist entries are written between the passes and between the chunks, every exported row may still leave exactly when no edit withdraws a selected row: last mark out of bounds when its chunk is read, or value allowlisted, and not removed by then |
| Exports.RowAfterEdits | src/cti/services/observable_service.py:848-861 | after any edits a row is gone if it was removed and otherwise has its last markings |
| Exports.MarkedBetweenPasses | src/cti/services/observable_service.py:848-861 | a CLEAR row that is marked RED between the passes is exported |
| ScoreState.FloorIsMax | src/cti/services/confidence.py:40-56 | the three-way GREATEST of maxima is the maximum of all feed, manual and analyst inputs, NULL exactly when there is none |
| ScoreState.InputsExact | src/cti/services/confidence.py:40-56 | the inputs are the confidences of the feeds' sources, the analyst's own and those of the report imports, and nothing else |
| ScoreState.RecomputedScoreMeaning | src/cti/services/confidence.py:57-74 | the recomputed score is the override, else the maximum input, else the old score |
| ScoreState.RecomputeChunks | src/cti/services/confidence.py:57-74 | recomputing in chunks, or twice, equals recomputing once |
| ScoreState.RecomputeTouched | src/cti/services/confidence.py:31-74 | an operation that recomputes every observable whose inputs it changes keeps the score invariant |
| ScoreOps.EveryRunKeepsScores | src/cti/services/confidence.py:31-154 | from every valid store, in every state reachable by creating, ingesting, importing, linking, unlinking, deleting reports, feeds or observables, overriding and decaying, the score is the override, else the maximum input if any; source <= native; all within 0..100 |
| ScoreOps.StepKeeps | src/cti/services/confidence.py:31-154 | each single operation keeps that invariant |
| ScoreOps.CreateKeeps | src/cti/services/observable_service.py:197-269 | creating or re-submitting a custom observable keeps it |
| ScoreOps.CreateMeans | src/cti/services/observable_service.py:197-269 | a new row scores its confidence; re-submitted without an override it scores the maximum of its inputs and the new confidence, its manual value and last-seen time rise to the larger one, and no other row changes |
| ScoreOps.OverrideKeeps | src/cti/services/observable_service.py:282-314 | setting or clearing an override keeps it |
| ScoreOps.OverrideMeans | src/cti/services/observable_service.py:282-314 | a pin is the score; cleared, the score is the maximum of the inputs, or stays when there is none; nothing else changes |
| ScoreOps.LinkKeeps | src/cti/services/report_service.py:309-334 | a manual link needs no recompute: it is no input |
| ScoreOps.UnlinkKeeps | src/cti/services/report_service.py:337-360 | unlinking keeps it |
| ScoreOps.DeleteReportKeeps | src/cti/services/report_service.py:186-203 | deleting a report keeps it |
| ScoreOps.DeleteReportMeans | src/cti/services/report_service.py:186-203 | exactly the report and its links go, and only scores of its observables may change |
| ScoreOps.RemoveFeedsKeeps | src/cti/services/feed_service.py:243-275 | removing feeds with one recompute at the end keeps it |
| ScoreOps.RemoveFeedsMeans | src/cti/services/feed_service.py:243-275 | exactly the feeds and their sources go, and only scores of the observables they reported may change |
| ScoreOps.ImportKeeps | src/cti/services/report_import_service.py:299-391 | an import that inserts missing observables and attributes links keeps it |
| ScoreOps.ImportMeans | src/cti/services/report_import_service.py:299-391 | missing observables are created, exactly the visible keys' links not attributed before are attributed with the confidence, and hidden or other rows and links are untouched |
| ScoreOps.IngestKeeps | src/cti/services/observable_service.py:393-497 | a committed ingest batch keeps it |
| ScoreOps.DecayKeeps | src/cti/services/confidence.py:100-154 | decay under safe settings keeps it |
| ScoreOps.DeleteKeeps | src/cti/services/retention.py:73-84 | deleting observables with their sources and links keeps it |
| ScoreOps.SafeSettingsExact | src/cti/services/confidence.py:124-141 | enabled decay keeps every source between 0 and its native confidence exactly when the rate is nonnegative with a nonnegative floor, the rate is 0, or the floor is at least 100 |
| ScoreOps.DecayTwice | src/cti/services/confidence.py:100-154 | a second decay at the same instant changes nothing |
| ScoreOps.DecayRule | src/cti/services/confidence.py:110-142 | a source seen within the days, or natively at or below the floor, keeps its confidence; any other loses the rate from its native one for each full week beyond the days, at least once, down to the floor |
| ScoreOps.DecayNeverRaises | src/cti/services/confidence.py:124-141 | between sightings, no decay after the one at a given time raises a source exactly when the source was stale at that time or has no room to rise |
| ScoreOps.DecayNeverRaisesIff | src/cti/services/confidence.py:124-141 | under safe settings no decay at any time raises a source's confidence exactly when its native confidence is at most the floor, or its confidence is at least what the first week of decay would make of the native one |
| ScoreOps.ResightingThenDecayRaises | src/cti/services/confidence.py:124-141 | a lower re-sighting keeps the native confidence, which leaves room to rise: the next decay raises the stored one from 40 to 85 |
| ScoreOps.BackfillLossless | alembic/versions/008_add_analyst_confidence.py:51-74 | after the backfill the first recompute gives the larger of the old score and the inputs: no score is lowered |
| ScoreOps.BackfillValidIff | alembic/versions/008_add_analyst_confidence.py:51-74 | the backfill alone leaves every stored score right exactly when no score was below one of its inputs |
| ScoreOps.UpgradedRunsKeepScores | alembic/versions/008_add_analyst_confidence.py:51-74 | after the backfill and a recompute of all rows an upgraded store is valid, so the invariant holds in every later run |
| ScoreDatabase.Database.RecomputeScores | src/cti/services/confidence.py:31-74 | the chunked UPDATE loop equals one recompute of all ids |
| ScoreDatabase.Database.Create | src/cti/services/observable_service.py:197-269 | a new row scores its confidence; a re-submitted one rises to the larger of old and new and scores the maximum of its inputs unless pinned; no other row changes and the invariant is kept |
| ScoreDatabase.Database.Override | src/cti/services/observable_service.py:282-314 | stores exactly the override step; a pinned score is the pin; a missing observable changes nothing |
| ScoreDatabase.Database.LinkTo | src/cti/services/report_service.py:309-334 | links once; an existing link and a missing report or observable change nothing |
| ScoreDatabase.Database.Unlink | src/cti/services/report_service.py:337-360 | removes an existing link and recomputes its observable, otherwise changes nothing |
| ScoreDatabase.Database.RemoveReport | src/cti/services/report_service.py:186-203 | removes the report with all its links and recomputes the linked observables |
| ScoreDatabase.Database.RemoveFeed | src/cti/services/feed_service.py:243-275 | a preconfigured or referenced feed is refused unchanged; otherwise it goes with its sources and the scores follow |
| ScoreDatabase.Database.RemoveDeprecated | src/cti/services/feed_service.py:426-459 | disabled unreferenced deprecated feeds are removed, the others converted, and one recompute covers every observable they had reported |
| ScoreDatabase.DeprecatedMeans | src/cti/services/feed_service.py:426-459 | of the feeds no longer among the defaults, those disabled and unreferenced are removed and all others converted |
| ScoreDatabase.Database.DecayAll | src/cti/services/confidence.py:91-154 | the loop equals the decay step in any order; the count returned is that of the observables with a changed source, at least the number of changed scores, and equal to it exactly when every such change shows |
| ScoreOps.ScoreChangesIff | src/cti/services/confidence.py:143-154 | a decayed source moves its observable's score exactly when there is no override and either no input equals the score any more or a feed ends up above it |
| ScoreOps.DecayCountExact | src/cti/services/confidence.py:110-154 | scores change only for observables with a changed source, and the two numbers are equal exactly when every such observable shows the change |
| ScoreOps.DecayCountsUnchanged | src/cti/services/confidence.py:110-154 | an observable held at 90 by a manual confidence is counted when its feed decays from 80 to 75, though its score stays 90 |
| ScoreDatabase.Database.DecayStale | src/cti/services/confidence.py:124-142 | the loop changes exactly the stale sources and collects exactly the observables of those that changed |
| Ingest.Deduplicate | src/cti/services/observable_service.py:383-386 | within a batch the last row of a key wins |
| Ingest.CommitBatch | src/cti/services/observable_service.py:393-497 | the statements of one batch store exactly the batch step |
| Ingest.TryBatch | src/cti/services/observable_service.py:392-518 | a batch is retried after deadlocks at most three times; it is stored exactly when some attempt commits, and otherwise nothing is |
| Ingest.BulkUpsert | src/cti/services/observable_service.py:355-521 | what is stored is exactly the committed prefix of batches of 500: each source of the feed is raised to the greatest confidence and time of the rows that stand last in their batch, a row without its own confidence counting as the feed's default and any other cut to 0..100; other sources and rows are untouched; the run fails exactly when a batch gives up |
| Ingest.PeakOfRows | src/cti/services/observable_service.py:380-470 | the peak of the committed batches is the greatest confidence and latest time that the rows standing for the key report |
| Ingest.RunStoresRows | src/cti/services/observable_service.py:399-470 | a run leaves of each source what it was, raised to those rows, or what they report, first seen as the first batch with the key says |
| Ingest.RunStoresRow | src/cti/services/observable_service.py:393-497 | and of each observable its analyst columns, the later of its own and the rows' last-seen times, and the score its inputs give |
| Ingest.AbsorbedNoop | src/cti/services/observable_service.py:393-497 | a batch whose rows are all stored at least as high and as late, with scores up to date, changes nothing |
| Ingest.RerunPrefix | src/cti/services/observable_service.py:380-518 | running any prefix again after any committed prefix leaves the state of the longer one |
| Ingest.CrashSafe | src/cti/services/observable_service.py:380-518 | a crash after any committed batch, then a full re-run with the same input and clock, ends in exactly the state of one full run |
| Ingest.BatchesCommute | src/cti/services/observable_service.py:393-497 | two batches, of one feed or two, commute up to first-seen times |
| Ingest.Confluent | src/cti/services/observable_service.py:380-518 | any interleaving of the same batches ends in the same sources, last-seen times and scores |
| Ingest.BatchSizeMatters | src/cti/services/observable_service.py:380-386 | of two rows for one key the last wins within a batch and the higher across batches: 10 against 90 |
| Ingest.SplitHarmlessIff | src/cti/services/observable_service.py:380-470 | any sequence of batches ends like one batch of everything, first-seen times aside, exactly when no sighting rises above what is stored and the key's last sighting, in confidence or time |
| Ingest.TwoPartsHarmlessIff | src/cti/services/observable_service.py:380-470 | the same for one batch cut in two, over the keys that occur in both parts |
| Ingest.BatchSizeNeutralIff | src/cti/services/observable_service.py:370-470 | the batch size as the parameter: a run ends like one batch of all its rows exactly when no sighting of its batches rises above what is stored and the last one of its key |
| Ingest.BatchSizesAgreeIff | src/cti/services/observable_service.py:370-470 | two batch sizes end alike exactly when, for every key, the highest confidence and latest time of their batches come to the same above what is stored |
| Ingest.SplitsAgreeIff | src/cti/services/observable_service.py:380-470 | the same for any two ways to cut rows with the same keys into batches |
| Ingest.BatchesMerge | src/cti/services/observable_service.py:370-386 | whatever the size, the batches of a run merge to the last row of every key |
| Retention.EnforceRetention | src/cti/services/retention.py:23-97 | exactly the deleted observables go, with their sources and links, and each was last seen, or else created, before the cutoff; a finished run leaves no such row that was unlocked at its last query; a failed one leaves exactly the committed deletions; the score invariant holds throughout |
| Retention.DeleteExpired | src/cti/services/retention.py:55-93 | the batch loop terminates and deletes exactly what it counts |
| Retention.AuditLog.Purge | src/cti/services/audit.py:822-867 | a finished purge removed exactly the events before the cutoff; a failed one removed the oldest of them, as many as it reports, earliest first and then by id; bad arguments change nothing |
| ReportImport.RunInv | src/cti/services/report_import_service.py:299-391 | under any interleaving of statements, each look-up split into SELECTs for any parts of its keys, every request's look-ups stay true and every attributed link has one credited request |
| ReportImport.EachPairAttributedOnce | src/cti/services/report_import_service.py:299-424 | under every such interleaving each pair a finished request imported was attributed before, and then by no request, or is attributed by exactly one; no observable is reported as created twice |
| ReportImport.EachPairCountedOnce | src/cti/services/report_import_service.py:393-424 | such a pair is counted as created or attributed by exactly one of the requests that import it, or, if it was attributed before, by none |
| ReportImport.StatementInv | src/cti/services/report_import_service.py:299-391 | each statement of each request, each single SELECT of a chunked look-up included, keeps that invariant |
| ReportImport.ReimportChangesNoLink | src/cti/services/report_import_service.py:339-387 | importing what is already attributed changes no link and claims none, at any statement |
| ReportImport.ReimportCountsNothing | src/cti/services/report_import_service.py:299-424 | an import whose items are all attributed when it arrives never changes a link, whatever runs beside it, and counts every key as already attributed |
| ReportImport.ImportsWhatIsVisible | src/cti/services/report_import_service.py:328-337 | under any interleaving a request imports an item exactly unless it hides RED and the item was RED when it was screened, and attributes no link it hides |
| ReportImport.HiddenLinksStay | src/cti/services/report_import_service.py:328-391 | from its screening on no statement of a request changes a link that it hides |
| ReportImport.ArrivalKept | src/cti/services/report_import_service.py:299-305 | a request keeps the items and the visibility it arrived with |
| ReportImport.CountResults | src/cti/services/report_import_service.py:393-424 | created, attributed, already attributed and skipped add up to the number of items |
| ReportImport.VerdictsAlone | src/cti/services/report_import_service.py:393-424 | alone, an item counts as created exactly when it had no row, as already attributed exactly when its link was, and as attributed otherwise |
| ReportImport.ImportStore.ImportCandidates | src/cti/services/report_import_service.py:299-424 | an import that meets no other imports exactly the items that are not both hidden and RED, skips none when nothing is hidden, attributes exactly the links of its keys that were not attributed, touches no other link, creates exactly the missing observables, and counts every item once |
| ReportImport.ImportStore.FindObservables | src/cti/services/report_import_service.py:164-182 | the look-up by type finds exactly the rows of its keys |
| ReportImport.ImportStore.FindValues | src/cti/services/report_import_service.py:159-182 | 500 values at a time find what one SELECT over all of them would |
| ReportImport.ImportStore.SeeLinks | src/cti/services/report_import_service.py:185-202 | 500 ids at a time see exactly the links of the keys, with their attribution |
| ReportImport.ImportStore.FindOrCreate | src/cti/services/report_import_service.py:306-326 | look-up, insert on conflict do nothing and second look-up give every item the id of its row |
| ReportImport.ImportStore.Attribute | src/cti/services/report_import_service.py:328-373 | of the items exactly those not hidden are kept, absent links are inserted as attributed, and lost races left to fill |
| ReportImport.ImportStore.FillAll | src/cti/services/report_import_service.py:374-387 | each remaining manual link is filled once, and links attributed meanwhile are left alone |
| AuditedDownload.AuditLog.BeginDisclosure | src/cti/services/audit.py:584-622 | either the initiated event joins the trace or the request is refused and nothing does |
| AuditedDownload.AuditLog.RecordOutcome | src/cti/services/audit.py:568-581 | the outcome names the initiated event; a failed write records nothing and raises nothing |
| AuditedDownload.Download.SendUnlessDisconnected | src/cti/services/audit.py:688-697 | a message counts as passed only if its send returned with no disconnect seen |
| AuditedDownload.Download.SendAll | src/cti/services/audit.py:699-724 | `sent` is the length of the leading chunks that passed, `delivered` that all messages did, and nothing is sent after the first that did not |
| AuditedDownload.PassedUnique | src/cti/services/audit.py:699-724 | the number of leading sends that passed, and with it `bytes_sent`, is determined by what the sends returned |
| AuditedDownload.Download.Call | src/cti/services/audit.py:675-746 | whatever the client does exactly one outcome is written; it is completed exactly when every send passed and reaping did not raise |
| AuditedDownload.ServeDownload | src/cti/services/audit.py:584-746 | the trace gets the initiated event, then exactly the messages the sends let through, then one outcome with the bytes that passed; the messages are the start and the body cut into pieces of the chunk size; completed exactly when all passed and nothing raised; nothing is sent before the initiated event |
| AuditedDownload.RequestData | src/cti/services/audit.py:699-724 | what was handed over carries the response from its first byte, and bytes_sent never exceeds it |
| AuditedDownload.ChunksAreBody | src/cti/services/audit.py:700-718 | the chunks carry the whole body in order, one empty chunk for an empty body |
| AuditedDownload.ChunkShape | src/cti/services/audit.py:711-718 | only the last chunk says that no more follows, and none is longer than the chunk size |
| AuditedDownload.MessagesAre | src/cti/services/audit.py:700-718 | piece i starts at i times the chunk size, is that long unless the body ends first, and says whether more follows; there are as many as it takes, and at least one |
| SummarySanitizer.SanitizeSummary | src/cti/services/audit.py:343-366 | the result shows, per key that is kept, the last value given for it in order of first appearance: scalars as they are, strings cut to 256, lists to 50 and a marker, containers down to the third level, names for anything else; within 4096 bytes, or else the longest run of field names that is |
| SummarySanitizer.CleanShows | src/cti/services/audit.py:300-322 | a cleaned value shows the given one at every level: null, booleans, numbers, dates and ids unchanged, strings cut, other objects by type name |
| SummarySanitizer.FieldsAre | src/cti/services/audit.py:325-334 | a key is kept exactly when it contains none of fifteen words in any case, or is the one exception, and its value is not dropped; its last value stays at the place of its first |
| SummarySanitizer.SizeIsTextLength | src/cti/services/audit.py:337-340 | the size counted is the UTF-8 length of the JSON text, escapes and separators included |
| SummarySanitizer.SanitizedIsSafe | src/cti/services/audit.py:343-366 | at most 4096 bytes, three container levels, 50 list items and a marker, and no denied key at any depth; strings within any limit that leaves room for the type names |
| SummarySanitizer.StringLimitExact | src/cti/services/audit.py:290-361 | a given summary's result is within all limits, strings of 256 characters included, exactly when it is replaced by the list of its field names or no type name that the cleaning reaches in it is longer than 254: names under a denied or overwritten key, past item 50 or in a dropped container do not count |
| SummarySanitizer.NameBoundExact | src/cti/services/audit.py:300-322 | 254 is the largest bound on type names under which every summary stays within 256 characters |
| SummarySanitizer.CleanSafeIff | src/cti/services/audit.py:300-322 | a value shown at a level is within the limits exactly when the type names reached in it are |
| SummarySanitizer.CleanFieldsSafeIff | src/cti/services/audit.py:325-335 | the same for a mapping whose later fields may take the clipped key of earlier ones |
| SummarySanitizer.PutSafeIff | src/cti/services/audit.py:325-335 | writing a key makes its old value irrelevant and its new one decisive |
| SummarySanitizer.LongTypeName | src/cti/services/audit.py:321-322 | a type name of 255 characters gives a string of 257 |
| SummarySanitizer.OversizedFallback | src/cti/services/audit.py:369-378 | the loop stops at the longest run that fits, and the fallback fits |
| SummarySanitizer.FallbackIsLongest | src/cti/services/audit.py:369-378 | a leading run of at most 50 names fits exactly when it is no longer than the one shown |
| SummarySanitizer.OversizedNamesFields | src/cti/services/audit.py:361-378 | a summary that fits is kept; one that does not shows the longest leading run of its own field names |
| SummarySanitizer.CleanSafe | src/cti/services/audit.py:300-322 | cleaning a value at any level gives only safe values |
| SummarySanitizer.CleanFieldsSafe | src/cti/services/audit.py:325-334 | cleaning a mapping gives only allowed, clipped keys with safe values |
| RefreshQueue.AtMostOneRefresh | frontend/src/api/client.ts:10-72 | in every reachable state at most one request leads a refresh, nobody waits without one, and nothing was sent three times or settled twice |
| RefreshQueue.OneRefreshInFlight | frontend/src/api/client.ts:22-72 | as long as only the interceptor asks for refreshes, at most one refresh request is in flight in every reachable state, and only while it is refreshing |
| RefreshQueue.NextOwn | frontend/src/api/client.ts:30-72 | every event keeps it so that only the current leader's own refresh request is out |
| RefreshQueue.SettlingIsComplete | frontend/src/api/client.ts:13-19 | when the refresh settles every waiter is settled, for the first and only time, the queue is empty, and the leader goes out once more or fails |
| RefreshQueue.SettlingFollowsRefresh | frontend/src/api/client.ts:13-69 | leader and waiters go on exactly when the refresh succeeded, and fail with it otherwise |
| RefreshQueue.AnswerDecides | frontend/src/api/client.ts:30-72 | only the first 401 of a request joins or starts a refresh; any other answer settles the request, and no other request is touched |
| RefreshQueue.RetryNeedsRefresh | frontend/src/api/client.ts:30-72 | in every reachable state a request that was sent twice, or is about to be, was released by a refresh that succeeded |
| RefreshQueue.NextKeeps | frontend/src/api/client.ts:30-72 | every response, settlement and retry keeps the invariant |
| RefreshQueue.Interceptor.HandleResponse | frontend/src/api/client.ts:30-72 | the handler's branches equal the response step and keep the invariant |
| RefreshQueue.Interceptor.HandleRefreshSettled | frontend/src/api/client.ts:53-67 | queue, retry and the finally block happen in one turn and equal the settlement step |
| RefreshQueue.Interceptor.ProcessWaiters | frontend/src/api/client.ts:13-19 | the loop settles exactly the queued requests, once each |
| UsageReport.Totals.Add | src/cti/services/ai_settings_service.py:469-471 | adds all eleven fields |
| UsageReport.Totals.Subtract | src/cti/services/ai_settings_service.py:473-475 | subtracts all eleven fields |
| UsageReport.Report | src/cti/services/ai_settings_service.py:497-595 | every column of the totals, of each listed row and of other is the count or sum over its records that its name says, missing numbers counted apart; the at most 100 rows are the groups with the most requests, in order, and with other they make up the totals |
| UsageReport.ListedPlusOther | src/cti/services/ai_settings_service.py:573-595 | the totals are the listed rows plus the records of groups not listed; with at most 100 groups the rest is zero |
| UsageReport.ListedTrue | src/cti/services/ai_settings_service.py:573-584 | the listed rows belong to distinct groups and hold their aggregates |
| UsageReport.SumGroupsIsAggregate | src/cti/services/ai_settings_service.py:497-518 | the rows of distinct groups sum to the aggregate of their records |
| UsageReport.AggregateMeans | src/cti/services/ai_settings_service.py:497-518 | an aggregate counts the selected records in all and by status, counts unknown tokens and costs apart, and adds up the known ones and what is committed |
| UsageReport.ListedLargest | src/cti/services/ai_settings_service.py:573-584 | listed groups come in order of requests, then provider and model, and before every group that is not listed |
| UsageReport.DaysAreTotals | src/cti/services/ai_settings_service.py:567-571 | the day rows add up to the totals, and a record's day is the 24 hours it started in |
| UsageReport.FollowPages | src/cti/services/ai_settings_service.py:670-708 | following next_before from the first page lists exactly the records of the month, once each, newest first and then by larger id, and terminates |
| UsageReport.PageAfter | src/cti/services/ai_settings_service.py:670-708 | the page after any prefix is the next `limit` records, with a cursor exactly when more follow |
| UsageReport.CursorRefusedIff | src/cti/services/ai_settings_service.py:683-689 | a cursor is refused exactly when no record of the month has its id |
| UsageReport.RowsBelow | src/cti/services/ai_settings_service.py:683-702 | the rows below a cursor are exactly the rest of the ordered month |
| StringOrder.StringLeLinear | src/cti/services/tlp.py:158-173 | the lexicographic order behind MAX, GREATEST and ORDER BY is a linear order |
| StringOrder.StringLessIff | src/cti/services/tlp.py:158-173 | a string is smaller exactly when it is a proper prefix or smaller at the first difference |

## Left out

- Regular-expression engines, Unicode categories, the IDNA codec and `ipaddress` parsing and printing: taken as functions with laws.
- Lone surrogates and Python's limit on printing very large integers: strings are code points, and printing an integer always succeeds.
- Candidate context snippets of the extraction preview: display text around a hit.
- Extraction.Extract: the preview's comparison with stored observables is not modelled; the result ends with the candidate list.
- AllowlistPolicy.CanonicalizeIdempotent: the wording of validation messages is not modelled, only which check fails; Unicode lower-casing is a law, not a table.
- Allowlist.Matcher.Match: the order of the reported ids is left open where the source iterates a dictionary; they are compared as a multiset.
- Exports.ExportValues: a row's `last_seen` is always present, so where the database sorts NULL is not modelled; the confidence, age, feed and tag filters are the conditions of one predicate.
- Exports.ApplyBlocklistPolicy: all chunks see one state of the table; `Exports.ExportJson` lets every chunk see its own.
- Exports.JsonExportSafeIff: allowlist entries deleted between the passes are not edits here; they withdraw no row.
- ScoreOps.EveryRunKeepsScores: each operation is one committed step; two transactions that interleave inside a recompute are not modelled. Feed defaults may change at any time through `AddFeed`.
- ScoreDatabase.Database.RemoveDeprecated: the synchronisation of URLs, configuration and credentials in the same function is not modelled.
- Ingest.BulkUpsert: the count of new observables is a comparison with the wall clock within five seconds and is not modelled; nor are the delays between retries and `updated_at`.
- Ingest.Confluent: first-seen times are excluded, since they record which batch came first.
- Retention.EnforceRetention: tag links and the cache invalidation after each commit are not modelled; the order of ids inside a batch is left open.
- ReportImport.EachPairAttributedOnce: a chunk of a look-up may be any part of the keys still to ask, where the source takes 500 of one type; the last look-up, which only reads the ids again, is left out. Unlinking and deletion during the imports are not modelled; isolation anomalies below statement level are not either. The re-extraction that validates the items, excerpts and scores are not part of the requests.
- AuditedDownload.Download.Call: the background task of a response, and whether a cancellation is raised again after the outcome is recorded, are not modelled. A cancellation while the watcher is reaped is.
- AuditedDownload.ServeDownload: a chunk size below 1 is refused when the response is built, so it is a precondition here.
- SummarySanitizer.SanitizedIsSafe: values are those a summary can hold after Python's own classification; the order of a set's members is given. Lists are shorter than 2^63, as Python's are.
- RefreshQueue.AtMostOneRefresh: the redirect to the login page and the values of responses are not modelled.
- UsageReport.Report: money is an exact integer of millionths; formatting, the budget lines and the stale flag of records are not modelled; of src/cti/services/ai/gateway.py only the committed amount of a record is.
- UsageReport.FollowPages: the page limit is at least 1, as the request requires; an empty page would have no cursor to name.
- Marking change reasons, `describe_markings`, `effective_tlp_map` and the RED filters of list pages: single branches or display.
- HTTP fetching, Redis, scheduling, sessions, encryption, authentication and the user interface other than the refresh queue.
- Tag checks, simple reads and writes, export profiles and refresh-token look-ups: settled by reading one branch.
