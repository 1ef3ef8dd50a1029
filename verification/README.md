# Verified models of the SLSsteam core

This project models, in Dafny, the parts of SLSsteam whose correctness is an
algorithmic matter, and proves what each part is for. Every file is one module.
`dafny verify dfyconfig.toml` checks the whole project.

Loops, cursors, in-place arrays and objects with fields of the original are
methods and classes here. Each such method is proved against a specification
function or predicate that does not know how the method works, and the laws of
the system are theorems about those specifications.

**Resolving functions by signature** (`PatternScan`, `Prologue`, `Signatures`,
`SignatureSearch`, `PatternCache`, `WarmStart`). A process is a partial map from
addresses to bytes together with its segments; a read outside the map does not
verify, so every verified method also shows what it never reads. The scanner that
jumps from literal to literal with `memchr` is proved to report exactly what a
naive scan reports, and the hits of a search are exactly the matches inside the
executable segments of the module. A search resolves exactly when a pattern matches once
in all that memory, or when 2 to 256 call sites share one target. The catalog that
remembers the results is a printer and a parser that invert each other, and the
main theorem is that every later start, with whatever catalog file the starts
before it left, resolves every pattern to the same address and site as the first
one did, whether an entry is trusted, rejected or served by the remote catalog.
A start after one that wrote its catalog keeps that catalog to the end, serves every
recorded pattern from it and leaves the file as it is.

**Codecs** (`Sha256`, `Base64`, `Utf8`, `Kv1`, `AppDataLayout`, with `Text` for
decimal numbers and lines). SHA-256 in any chunking equals the fold of FIPS 180-4;
`Sha256Constants` proves its constants to be the cube and square roots of primes that
the standard names, and `Sha256Abc` its digest of "abc", 64 rounds and all.
Base 64 decodes what it encodes, and the theorem about the decoder says exactly
which texts it accepts and which of those are canonical. The UTF-8 validator accepts exactly
the encodings of sequences of scalar values of RFC 3629. Writing any tree as KV1
text and reading it gives the tree back, up to keys that occur twice. A pair of
field offsets is derived exactly from the two instruction encodings that hold it.

**Publishing cache pairs** (`Publication`, `ProvisionCache`). Threads take
snapshots, publish, forget and read in any interleaving of steps, with the three
locks, a missed file lock, partial clean-ups and failing writes, after which the
old pair, no pair or the new pair is left. The theorems speak about the history of
any run: which publications can occur in it, what a read can return, and that no
thread is ever stuck. `ProvisionCache` has the operations as methods of a class
whose ghost history says what the maps mean: a generation is the number of
forgets, a readable pair is newer than the last forget of its app. Each operation
is also tied to the steps one thread takes in the interleaved protocol.

**Configuration policy** (`ConfNormalize`, `ConfigDiscovery`, `NotifyThrottle`).
The indentation repair, the budgeted selection of managed apps, its order of priority
and its stability over reloads, and the popup throttle.

Some properties that one would expect do not hold of the code as they stand, and
the theorems say exactly when they do:

- A token taken before a forget can publish afterwards if the app was forgotten a
  multiple of 2^64 times in between, since the generation counter wraps
  (`Publication.GateIsExact`; `ProvisionCache.OldTokenPublishesAfterWrap` gives
  the schedule).
- The two signature decoders read a strict signature differently exactly when it
  has a `??` token (`Signatures.DecodersAgree`; `Signatures.DecodersDisagree` shows
  it for `A1 ??`).
- A printed catalog reads back exactly when its nanoseconds are in [0, 10^9),
  which the printer does not check (`PatternCache.SerializedReadsBack`;
  `PatternCache.OutOfRangeIsPrinted` gives a catalog that is lost). A module with
  such a file time is scanned at every start (`WarmStart.StoredIsAdmitted`).
- A decoded base 64 text re-encodes to itself exactly when the bits of its last
  character that belong to no octet are zero (`Base64.EncodeOfDecode`;
  `Base64.SpareBitsAreIgnored` shows it for `AB==`). The padded final group is checked
  against the alphabet like any other.
- The header of `src/confnormalize.hpp` speaks of a dash followed by white space;
  of such lines the code takes exactly those with nothing, a space or a tab after
  the dash (`ConfNormalize.DashItemExactly`), so items that end in a carriage
  return are not repaired (`ConfNormalize.CarriageReturnIsNoItem`).
- A trusted catalog entry is served without a scan. It is what the scan would find
  exactly when the scan finds the recorded site (`WarmStart.HitIsColdExactly`);
  entries that a cold start wrote over the same memory meet this
  (`WarmStart.HitIsCold`).
- Reading KV1 text back is exact exactly when no object has a key twice
  (`Kv1.ReadsBackExactly`; `Kv1.RepeatedKeyIsLost` gives a body that is not); in
  general the last value of a key is found at its first position.

## Model

| member | source | states |
|---|---|---|
| PatternScan.HitsExact | src/pattern_scan.hpp:102-112 | the reference scan lists exactly the matching addresses, each once and ascending |
| PatternScan.RangeHitsExact | src/pattern_scan.hpp:87-95 | the matches of a range are the matches that lie wholly inside it |
| PatternScan.MemChr | src/pattern_scan.hpp:150-155 | the first occurrence of a byte, or none in the whole stretch |
| PatternScan.CandidateMatches | src/pattern_scan.hpp:102-112 | true exactly where every non-wildcard element equals its byte, truncated to a byte |
| PatternScan.RecordMatch | src/pattern_scan.hpp:114-125 | count, reported address and capped list after one more match are those of the extended list of matches |
| PatternScan.NextCandidate | src/pattern_scan.hpp:148-157 | every candidate that the literal search passes over is no match |
| PatternScan.SkipCandidates | src/pattern_scan.hpp:148-166 | no pattern matches where its first literal does not occur, so the scan may jump |
| PatternScan.ScanWildcards | src/pattern_scan.hpp:128-143 | the scan without a literal reports what the reference scan reports |
| PatternScan.ScanLiteral | src/pattern_scan.hpp:145-170 | the literal-driven scan reports what the reference scan reports |
| PatternScan.ScanPatternRange | src/pattern_scan.hpp:83-170 | count, address (last match, or first without duplicates) and capped ascending list equal those of the naive scan, for every pattern and range, reading only inside the range |
| PatternScan.RecordConcat | src/pattern_scan.hpp:121-124 | offering matches in batches fills the capped list as offering them at once |
| PatternScan.ConvergedTarget | src/pattern_scan.hpp:63-78 | the one value a non-empty list repeats, or none when it is empty or two values differ |
| Prologue.SearchFromExact | src/memhlp.cpp:259-290 | the search from any step returns the nearest matching window from there on, and bad exactly when there is none |
| Prologue.NearestExact | src/memhlp.cpp:259-290 | the answer is bad exactly when no window within 65536 steps and above the bound matches; otherwise it is the nearest one and lies between bound and address |
| Prologue.CandidateExactly | src/memhlp.cpp:259-290 | a window is an answer exactly when every byte of the prologue, read downwards, stands there, -1 matching anything, and its lowest byte is not below the bound |
| Prologue.NoneAfterBound | src/memhlp.hpp:66-76 | once a window crosses the lower bound no later one can match, so stopping there loses nothing |
| Prologue.FindPrologue | src/memhlp.cpp:259-290 | the loop with its early break returns the nearest match and reads only from the bound to the address |
| Signatures.ParseSignatureLoop | src/pattern_cache.cpp:112-162 | the cursor loop accepts a text and yields its elements exactly as `Signatures.AcceptedExactly` says |
| Signatures.ParseTokensLoop | src/pattern_cache.cpp:119-158 | the elements of all tokens, or none when one does not parse or there are more than 1024, and whether one of them is a literal |
| Signatures.AcceptedExactly | src/pattern_cache.cpp:112-162 | a text is accepted exactly when it is 1 to 1024 tokens with one space between them that each parse, one of them a literal, and then it means their elements |
| Signatures.TokenExactly | src/pattern_cache.cpp:126-154 | one or two question marks are a wildcard, two upper-case hex digits the byte they spell, and nothing else is a token |
| Signatures.PatternToBytesLoop | src/memhlp.cpp:14-36 | the lenient decoding of any text, for any way of reading a number |
| Signatures.NumeralReadsHexToken | src/memhlp.cpp:27-30 | `strtoul` base 16 reads an upper-case two-digit token as its value and consumes two characters |
| Signatures.LenientExpands | src/memhlp.cpp:14-36 | the lenient decoder reads a strict signature token by token, `??` as two wildcards |
| Signatures.DecodersAgree | src/pattern_cache.cpp:134-137 | on an accepted signature both decoders give the same pattern exactly when no token is `??` |
| Signatures.DecodersDisagree | src/memhlp.cpp:14-36 | `A1 ??` is accepted as two elements and scanned with another pattern |
| Signatures.TokensAreSafe | src/pattern_cache.cpp:134-154 | an accepted signature consists of upper-case hex digits, question marks and spaces |
| SignatureSearch.HitIsLocated | src/memhlp.cpp:69-88 | every match lies in one selected executable segment, with room for the pattern |
| SignatureSearch.AllHitsExact | src/memhlp.cpp:69-100 | an address is among the hits exactly when the whole pattern stands there inside one executable segment that touches the module; the hits are ascending, so each counts once |
| SignatureSearch.DerivedExactly | src/memhlp.cpp:172-212 | what a site leads to: itself, its jump target, or the nearest prologue above the start of its segment and module |
| SignatureSearch.ResolvesExactly | src/memhlp.cpp:107-171 | a signature resolves exactly when it matches once, or is Relative with 2 to 256 matches that all lead to one good target, which is then the result |
| SignatureSearch.CollectedListComplete | src/pattern_scan.hpp:52-53 | the collected list is all matches exactly when there are at most 256 |
| SignatureSearch.ScanModule | src/memhlp.cpp:38-100 | total, capped list and unique address over all segments are those of the list of all matches |
| SignatureSearch.FollowAll | src/memhlp.cpp:139-152 | all targets in order, or nothing when one call site leads nowhere |
| SignatureSearch.SearchSignatureDetailed | src/memhlp.cpp:107-212 | match, target and count are the reference verdict in all three follow modes |
| SignatureSearch.Follow | src/memhlp.cpp:172-212 | the followed target of a unique match, by mode |
| Text.DecimalReadsBack | src/pattern_cache.cpp:95-110 | a printed number is all digits and reads back to itself |
| Text.DecimalIsShortest | src/pattern_cache.cpp:95-110 | no digit string of the same value is shorter than the printed one |
| Text.SplitOfJoin | src/pattern_cache.cpp:63-76 | lines that are joined split into the same lines |
| Text.JoinOfSplit | src/pattern_cache.cpp:63-76 | a terminated text is the join of its lines |
| PatternCache.SplitLines | src/pattern_cache.cpp:63-76 | the cursor loop yields the lines of a terminated text and nothing for any other |
| PatternCache.SerializeLoop | src/pattern_cache.cpp:372-398 | the appended text is the printed form, empty for an invalid or oversized catalog |
| PatternCache.ParseLoop | src/pattern_cache.cpp:400-465 | the parser with its line cursor accepts exactly the texts of the grammar and yields their catalog |
| PatternCache.SerializedReadsBack | src/pattern_cache.cpp:372-465 | a printed catalog parses to itself exactly when its nanoseconds are in [0, 10^9) |
| PatternCache.ParsedExactly | src/pattern_cache.cpp:400-465 | a text parses to a catalog exactly when the catalog is valid with nanoseconds in range and the text, terminated and at most 65536 characters, consists of its lines, up to zeros in front of numbers and the sign of a zero, and nothing else |
| PatternCache.LinesExactly | src/pattern_cache.cpp:379-396 | the text of a catalog line by line: eight lines of the module and seven of every locator |
| PatternCache.ValidExactly | src/pattern_cache.cpp:186-211 | a catalog is valid exactly when module, build id, size, number of locators, their distinct symbols, offsets, signatures and modes obey the rules, written out |
| PatternCache.SizesExactly | src/pattern_cache.cpp:372-417 | a catalog is printed exactly when it is valid and takes at most 65536 characters; what parses is no longer and ends with a newline |
| PatternCache.OutOfRangeIsPrinted | src/pattern_cache.cpp:372-398 | a catalog with negative nanoseconds is printed and does not parse to itself |
| PatternCache.ParsedIsValid | src/pattern_cache.cpp:429-464 | whatever parses has a valid shape and nanoseconds in range |
| PatternCache.ParsedReserializes | src/pattern_cache.cpp:372-465 | whatever parses prints to a non-empty text that is no longer and parses to the same catalog |
| WarmStart.HitIsCold | src/patterns.cpp:132-242 | a trusted entry that a cold resolution recorded gives the address and site the scan would give, also for another pattern of the same symbol |
| WarmStart.HitIsColdExactly | src/patterns.cpp:132-242 | a trusted entry of any catalog, whoever wrote it, gives what the scan would give exactly when the scan finds the recorded site |
| WarmStart.PassAgrees | src/patterns.cpp:577-620 | a whole pass over the registry with such a catalog equals the scan of every pattern, including after a rejection in its middle |
| WarmStart.PassIsSafe | src/patterns.cpp:577-620 | whatever the local and the remote catalog hold, no pattern of a pass resolves to anything but executable memory of the module |
| WarmStart.WarmAgreesWithCold | src/patterns.cpp:132-242 | over the same memory, compiled patterns and remote catalog, the n-th start on the file the earlier ones left resolves every pattern to the address and site of the first start, for every n and in all follow modes |
| WarmStart.FilesAreCold | src/patterns.cpp:511-533 | after any number of starts the file is none at all or the one a cold start without remote catalog writes |
| WarmStart.BuiltExactly | src/patterns.cpp:472-508 | a pass is recorded exactly when every pattern with an address and a site has both in the module, every other one is optional, and there is one to record; the catalog lists these in registry order, field by field |
| WarmStart.FileAfterExactly | src/patterns.cpp:511-533 | a start rewrites its file exactly when it has a catalog to write and either admitted none and has no remote one, or rejected an entry of the admitted one |
| WarmStart.StoredIsAdmitted | src/patterns.cpp:412-447 | a written catalog of distinct symbols is admitted by the next start exactly when the nanoseconds of the module's file time are in [0, 10^9) |
| WarmStart.RecordedIsHit | src/patterns.cpp:132-242 | an entry recorded from unchanged memory passes every check and is served |
| WarmStart.WarmStartHits | src/patterns.cpp:132-242 | after a cold start that wrote its catalog for a module with nanoseconds in range, every resolved pattern whose signature the strict decoder reads alike is served without a scan |
| WarmStart.WarmStartKeepsCatalog | src/patterns.cpp:132-242 | after a cold start that wrote its file, for registered symbols that are distinct and signatures read alike, the next start ends with the catalog it loaded and the outcome of the first, serves every resolved pattern from it, misses the others, and leaves the file as it is |
| WarmStart.KeptExactly | src/patterns.cpp:132-242 | a pass keeps its catalog exactly when no lookup of it rejects |
| WarmStart.OutcomeExactly | src/patterns.cpp:577-620 | what a pass finds for each pattern: the hit of the catalog unless a pattern up to it was rejected, else the remote catalog or the scan |
| WarmStart.HitExactly | src/patterns.cpp:132-242 | a lookup is a hit exactly when the first locator of the symbol was recorded for this pattern, its target is executable module memory, the bytes of its signature still stand at its site inside one executable segment, and following the site leads to the target |
| WarmStart.LoadedExactly | src/patterns.cpp:412-447 | a file is admitted exactly when it parses, was written for this very module file, every locator describes a compiled pattern and no required pattern is missing |
| WarmStart.UnservedExactly | src/patterns.cpp:244-293 | the remote catalog resolves a pattern exactly when its first locator of the symbol was made for the pattern and names executable module memory; else the scan does |
| WarmStart.ColdExactly | src/patterns.cpp:577-620 | a scan resolves a pattern exactly when the search has a target in executable memory of the module |
| WarmStart.Pattern.LocalCatalogAddress | src/patterns.cpp:132-242 | hit, miss and rejection exactly as the checks decide; only a rejection touches the state, and then it discards the catalog and schedules a new one; without a locator of the symbol the state is unchanged exactly when the pattern is optional |
| WarmStart.Pattern.Find | src/patterns.cpp:577-620 | the fields and the catalog after a find are those of the local lookup, then the remote one, then the scan; a pattern found remotely has no site, and a resolved address is executable memory of the module |
| WarmStart.ResolveRegistry | src/patterns.cpp:859-888 | the loop over the registry, local and remote catalog at hand, leaves every pattern with the outcome of the pass, at no address or in executable memory of the module, and succeeds exactly when every required pattern is resolved |
| WarmStart.BuildLocalCatalog | src/patterns.cpp:472-508 | the catalog of all resolved patterns in order, none when a required one is missing or an address is outside the module |
| WarmStart.WriteLocalCatalog | src/patterns.cpp:511-533 | the file becomes the printed catalog exactly when there is none to keep, no remote one is in use and there is something to print |
| Sha256.FillSchedule | src/utils.cpp:147-155 | the array holds the message schedule of FIPS 180-4, section 6.2.2 |
| Sha256.AllRounds | src/utils.cpp:157-168 | 64 turns of the loop are 64 rounds of the standard |
| Sha256.Transform | src/utils.cpp:133-170 | the state becomes the compression of the old state and the block |
| Sha256.Sha256Ctx.constructor | src/utils.cpp:172-179 | an initial context has absorbed the empty message |
| Sha256.Sha256Ctx.Append | src/utils.cpp:183-193 | one octet extends the message the context stands for, across block boundaries |
| Sha256.Sha256Ctx.Update | src/utils.cpp:181-193 | a chunk of any length extends the message by exactly that chunk |
| Sha256.Sha256Ctx.PadTail | src/utils.cpp:197-208 | both padding branches give the padding of FIPS 180-4, section 5.1.1, up to the length |
| Sha256.WriteLength | src/utils.cpp:210-212 | the last eight octets are the length, most significant first |
| Sha256.WriteDigest | src/utils.cpp:215-217 | the 32 octets are the state words, most significant octet first |
| Sha256.Sha256Ctx.Final | src/utils.cpp:195-218 | for every message shorter than 2^61 octets the output is its FIPS 180-4 hash |
| Sha256.HashChunks | src/utils.cpp:221-241 | however a file is cut into chunks, the digest is the hash of the whole |
| Sha256Constants.PrimesInOrder | src/utils.cpp:135-144 | the 64 numbers behind the constants are the first 64 primes |
| Sha256Constants.ConstantsAreCubeRoots | src/utils.cpp:135-144 | each round constant is the first 32 bits of the fractional part of the cube root of its prime (FIPS 180-4, section 4.2.2) |
| Sha256Constants.InitialIsSquareRoots | src/utils.cpp:172-179 | each initial state word is the first 32 bits of the fractional part of the square root of its prime (FIPS 180-4, section 5.3.3) |
| Sha256Abc.DigestOfAbc | src/utils.cpp:133-218 | the digest of "abc" is that of the standard, by the schedule and every round |
| Base64.DecodeOfEncode | include/base64/base64.hpp:504-561 | decoding the encoding of any octets gives them back |
| Base64.DecodeAccepts | include/base64/base64.hpp:572-685 | a text decodes exactly when its length is a multiple of 4 and all but one or two final `=` is in the alphabet; the length of the result follows |
| Base64.EncodeOfDecode | include/base64/base64.hpp:630-676 | decoded text is the encoding of its octets exactly when the unused bits of its last character are zero |
| Base64.AlphabetIsStandard | include/base64/base64.hpp:460-500 | the alphabet is table 1 of RFC 4648 |
| Base64.EncodeAnswers | include/base64/base64.hpp:504-561 | the encodings of "f", "fo", "foo" and "foobar" are those of RFC 4648, section 10 |
| Base64.SpareBitsAreIgnored | include/base64/base64.hpp:663-676 | `AB==` decodes to the octet that `AA==` encodes |
| Base64.UnpaddedIsStrict | include/base64/base64.hpp:601-628 | text without padding decodes exactly when every character is in the alphabet, and then re-encodes to itself |
| Base64.FourTables | include/base64/base64.hpp:601-628 | the combined table values are below the bad mark exactly when all four characters are in the alphabet, and their low bytes are the three octets |
| Base64.EncodeTables | include/base64/base64.hpp:524-534 | the two encode tables on the shifted octets give the four characters of RFC 4648, section 4 |
| Base64.EncodeInto | include/base64/base64.hpp:504-561 | the buffer filled with padding and written over holds the RFC 4648 encoding |
| Base64.DecodeInto | include/base64/base64.hpp:572-685 | success and output are those of the reference decoding, including all throwing paths |
| Utf8.EncodedIsAcceptable | src/pattern_catalog.cpp:42-77 | the encoding of every scalar value passes every check and its accumulated value is that scalar |
| Utf8.AcceptableIsEncoded | src/pattern_catalog.cpp:42-77 | a sequence that passes the checks is the encoding of its value: nothing overlong, no surrogate, nothing above 0x10FFFF |
| Utf8.Peel | src/pattern_catalog.cpp:32-78 | a string is UTF-8 exactly when it starts with an accepted sequence and the rest is UTF-8 |
| Utf8.EncodingIsUnique | src/pattern_catalog.cpp:29-80 | no string encodes two different sequences of scalar values |
| Utf8.EncodeAnswers | src/pattern_catalog.cpp:42-77 | the encodings of one to four octets are those of the examples of RFC 3629, section 7, up to 0x10FFFF |
| Utf8.ReadContinuations | src/pattern_catalog.cpp:67-73 | all continuation octets are checked and folded into the value |
| Utf8.ReadSequence | src/pattern_catalog.cpp:34-78 | one turn of the loop accepts exactly an acceptable sequence and skips its length |
| Utf8.IsValidUtf8 | src/pattern_catalog.cpp:29-80 | accepts exactly the concatenations of RFC 3629 encodings of scalar values |
| Kv1.EmitEscaped | src/feats/appinfo_provision.cpp:340-349 | appends the quoted text with quotes and backslashes escaped |
| Kv1.EmitMap | src/feats/appinfo_provision.cpp:353-417 | appends the text of the normalized entries: sequences as index-keyed objects, nulls and other items as empty strings |
| Kv1.EmitItems | src/feats/appinfo_provision.cpp:384-406 | a sequence is appended as an object keyed by its indices |
| Kv1.RenderWire | src/feats/appinfo_provision.cpp:854-859 | the wire text of a body; a body that is no map is written as an empty one |
| Kv1.EntriesExactly | src/feats/appinfo_provision.cpp:353-417 | every member of an object by what its node is: null, scalar, sequence or map |
| Kv1.ItemsExactly | src/feats/appinfo_provision.cpp:384-406 | every item of a sequence has its index for a key; nulls and nested sequences become empty strings |
| Kv1.WireExample | src/feats/appinfo_provision.cpp:353-417 | the layout of a document with any key, name and value: quotes, tabs, braces and newlines |
| Kv1.PlainIsWritten | src/feats/appinfo_provision.cpp:340-349 | text without quotes and backslashes is written as it is, between quotes |
| Kv1.SpecialIsEscaped | src/feats/appinfo_provision.cpp:340-349 | a quote or a backslash is written with one backslash before it |
| Kv1.EscapeIsRead | src/feats/appinfo_provision.cpp:1508-1532 | a backslash makes n, t and r a newline, a tab and a return, and any other character stand for itself |
| Kv1.BareExactly | src/feats/appinfo_provision.cpp:1534-1544 | an unquoted word ends at a blank, a brace, a quote or the end, and nowhere else |
| Kv1.CommentIsSkipped | src/feats/appinfo_provision.cpp:1493-1506 | a comment up to the end of its line does not change the next token |
| Kv1.UnquoteOfEscape | src/feats/appinfo_provision.cpp:1508-1532 | unquoting an escaped text of arbitrary characters gives it back and stops at its closing quote |
| Kv1.WireReadsBack | src/feats/appinfo_provision.cpp:1440-1544 | reading a written document yields its body with every key holding its last value at its first position |
| Kv1.ReadsBackExactly | src/feats/appinfo_provision.cpp:340-425 | reading back changes nothing exactly when no object has a key twice |
| Kv1.RepeatedKeyIsLost | src/feats/appinfo_provision.cpp:1454-1479 | a body that has one key twice reads back without its first value |
| Kv1.DamagedKeepsMembers | src/feats/appinfo_provision.cpp:1454-1479 | whatever stands where another member is due, a brace, the end or a key without a value, ends the object and keeps the members before it |
| Kv1.NormalizedIsDistinct | src/feats/appinfo_provision.cpp:384-406 | a node whose maps have distinct keys is normalized to a tree with distinct keys, index keys included |
| Kv1.NodeReadsBack | src/feats/appinfo_provision.cpp:854-859 | writing any node whose maps have distinct keys and reading it gives its normalized body |
| Kv1.CmVdfReader.SkipWs | src/feats/appinfo_provision.cpp:1493-1506 | stops at the first character that is neither blank nor in a comment, or at the end |
| Kv1.CmVdfReader.ReadQuoted | src/feats/appinfo_provision.cpp:1508-1532 | the unescaped text up to the closing quote, or the end of input without one |
| Kv1.CmVdfReader.ReadBare | src/feats/appinfo_provision.cpp:1534-1544 | the longest word up to a blank, brace or quote |
| Kv1.CmVdfReader.NextToken | src/feats/appinfo_provision.cpp:1481-1491 | the next token on any text; the position never passes the end and moves forward unless the end is reached |
| Kv1.CmVdfReader.ParseObject | src/feats/appinfo_provision.cpp:1454-1479 | terminates on every text and returns the members read up to the brace or the first malformed token |
| Kv1.CmVdfReader.ParseAppinfo | src/feats/appinfo_provision.cpp:1440-1449 | the body of the top-level object, or none |
| Kv1.RenderThenParse | src/feats/appinfo_provision.cpp:1440-1544 | the writer followed by the reader returns the normalized body |
| Publication.PublicationMutexKept | src/feats/appinfo_provision.cpp:1074-1077 | every step keeps the publication lock with the one thread whose place holds it |
| Publication.GenerationKept | src/feats/appinfo_provision.cpp:4106-4118 | every step keeps the counter equal to the number of forgets, plus one between bump and mark, modulo 2^64 |
| Publication.PairKept | src/feats/appinfo_provision.cpp:1621-1625 | every step keeps each pair that is not marked newer than the last forget of its app |
| Publication.ManagedKept | src/feats/appinfo_provision.cpp:2603-2611 | every step keeps the managed apps what the history of changes to them says |
| Publication.OtherPlaceKept | src/feats/appinfo_provision.cpp:1074-1123 | what a thread relies on between its steps is kept by the steps of all other threads |
| Publication.RunKeepsInv | src/feats/appinfo_provision.cpp:1069-1126 | every state of every run satisfies the invariant, and the history only grows |
| Publication.OnlyFreshTokensPublish | src/feats/appinfo_provision.cpp:1082-1090 | in every run what reaches the disk, even by a failed publication, gets there by a token of an app that the history says was managed when its snapshot was taken, that was not forgotten while it was taken, and a multiple of 2^64 times since |
| Publication.StaleTokenNeverPublishes | src/feats/appinfo_provision.cpp:4099-4121 | a token overtaken by one to 2^64 - 1 forgets never puts a pair on disk afterwards |
| Publication.GateIsExact | src/feats/provision_cache.hpp:269-274 | in every reachable state the gate opens exactly for managed tokens with a multiple of 2^64 forgets since |
| Publication.ReadsAreCurrent | src/feats/appinfo_provision.cpp:1617-1645 | in every run a read returns a pair that some event put on disk, and no forget of the app lies between that event and the invalidation check of the read |
| Publication.ReadsAreFresh | src/feats/appinfo_provision.cpp:1617-1645 | in every run a returned pair is one an earlier process left, or its token saw a multiple of 2^64 forgets between its snapshot and the invalidation check of the read |
| Publication.LocksExclude | src/feats/appinfo_provision.cpp:1074-1077 | at no time do two threads hold the same lock |
| Publication.NobodyIsStuck | src/feats/appinfo_provision.cpp:4104-4139 | in every reachable state with an operation under way some such operation can go on |
| ProvisionCache.Provisioner.SnapshotCachePublication | src/feats/appinfo_provision.cpp:2603-2611 | the generation is the number of forgets of the app so far modulo 2^64, the managed bit is what the history says, and the token is one the gate can judge later |
| ProvisionCache.Provisioner.PersistBuffer | src/feats/appinfo_provision.cpp:1069-1126 | a pair reaches the disk only by a token that saw a multiple of 2^64 forgets since its snapshot; success means just that and that the pair can then be read, a stale token changes nothing, and a failed write is recorded when its pair stays |
| ProvisionCache.Provisioner.ForgetApp | src/feats/appinfo_provision.cpp:4099-4184 | no token that could publish before can publish afterwards, and the app cannot be read, even when the clean-up is missed; app 0 changes nothing |
| ProvisionCache.Provisioner.ReadValidatedCacheBuffer | src/feats/appinfo_provision.cpp:2190-2196 | a returned buffer was put on disk by an event after the last forget of the app, and nothing is returned without the lock or against the metadata |
| ProvisionCache.Provisioner.ClearCacheReadInvalidation | src/feats/appinfo_provision.cpp:4196-4201 | for every app, the pair becomes readable, and readable pairs are all newer than the last forget of their app exactly when this one is |
| ProvisionCache.GateIsFresh | src/feats/provision_cache.hpp:269-274 | comparing generations decides whether the app was managed and forgotten a multiple of 2^64 times since the snapshot |
| ProvisionCache.RepublishAfterForget | src/feats/appinfo_provision.cpp:4099-4121 | after a forget an old token is refused and nothing is read; a new one of a managed app publishes what is then read |
| ProvisionCache.SnapshotAlone | src/feats/appinfo_provision.cpp:2603-2611 | the steps of a snapshot by one thread issue exactly the token of the current state |
| ProvisionCache.PersistAlone | src/feats/appinfo_provision.cpp:1069-1126 | the steps of a publication by one thread, in every outcome, have one joint effect and release all locks: lock missed, refused, written, or failed with the old pair, no pair or the new pair left |
| ProvisionCache.PersistView | src/feats/appinfo_provision.cpp:1069-1126 | that effect, seen through the shared maps, is the one the method promises |
| ProvisionCache.ForgetAlone | src/feats/appinfo_provision.cpp:4099-4184 | the steps of a forget by one thread have the effect of the method and release all locks |
| ProvisionCache.ReadAlone | src/feats/appinfo_provision.cpp:2190-2196 | the steps of a read by one thread, found, not found or rejected by digest or marker, return what the method returns and change nothing |
| ProvisionCache.OldTokenPublishesAfterWrap | src/feats/appinfo_provision.cpp:4108-4108 | a schedule in which a token publishes after exactly 2^64 forgets of its app |
| ConfNormalize.RepairIsIdempotent | src/confnormalize.hpp:88-153 | repairing repaired lines changes nothing |
| ConfNormalize.RepairedText | src/confnormalize.hpp:88-153 | the repaired text has the repaired lines and the same end, is a fixed point, and equals the input exactly when no line changes |
| ConfNormalize.UnchangedExactly | src/confnormalize.hpp:17-19 | a text is returned byte for byte exactly when any two items of one run have the same indent |
| ConfNormalize.RepairIsConservative | src/confnormalize.hpp:88-153 | line count, final newline and all text after leading spaces stay; only items move, the first of a run never does, and the items of a run end at one indent |
| ConfNormalize.ItemsAlign | src/confnormalize.hpp:94-141 | any two items with only items, blank lines and comments between them have one indent after the repair, and the same text after it; lines are told apart by their characters |
| ConfNormalize.SeqItem | src/confnormalize.hpp:42-53 | recognizes spaces, a dash and then a space, a tab or the end, and returns the indent |
| ConfNormalize.DashItemExactly | src/confnormalize.hpp:38-53 | a dash followed by white space or nothing starts an item exactly when nothing, a space or a tab follows |
| ConfNormalize.ItemExactly | src/confnormalize.hpp:42-53 | a line is an item of indent n exactly when n spaces, a dash, and a space, a tab or nothing start it |
| ConfNormalize.BlankOrCommentExactly | src/confnormalize.hpp:28-36 | a line is blank or a comment exactly when it is spaces and tabs up to its end or a number sign |
| ConfNormalize.CarriageReturnIsNoItem | src/confnormalize.hpp:42-53 | misaligned items that end in a carriage return are left alone, while the same items without it are moved |
| ConfNormalize.SplitLines | src/confnormalize.hpp:62-82 | the lines of a text and whether it ends with a newline |
| ConfNormalize.ExtendRun | src/confnormalize.hpp:106-127 | the last item of the run: only items, blanks and comments up to it, and only blanks and comments until the run ends |
| ConfNormalize.RepairLines | src/confnormalize.hpp:94-141 | the nested in-place loops give the line-by-line repair, and report a change exactly when there is one |
| ConfNormalize.RepairSeqIndent | src/confnormalize.hpp:88-153 | the returned text is the repaired text, and the flag says whether it differs |
| ConfigDiscovery.TopIsUnique | src/config_discovery.hpp:69-111 | only one set of that size has nothing before it left out, so the order in which sets are walked does not matter |
| ConfigDiscovery.LeadingExactly | src/config_discovery.hpp:96-109 | the order of priority in terms of the four sets and the ids alone |
| ConfigDiscovery.AddSorted | src/config_discovery.hpp:82-94 | one pass extends the selection by the next class in ascending order until the budget is spent |
| ConfigDiscovery.SelectManagedSources | src/config_discovery.hpp:69-111 | the first min(cap, n) of the n non-zero discovered apps; a selected app comes before every one left out, by YAML list, then installed, then previously active, then the rest, each by id; ignored and active add up to discovered |
| ConfigDiscovery.ReloadIsStable | src/config_discovery.hpp:96-109 | with the active set fed back and nothing else changed, the same set is selected |
| ConfigDiscovery.NothingIsEvicted | src/config_discovery.hpp:96-109 | adding scripts of apps that are not installed never pushes an active app out |
| ConfigDiscovery.RemovedAppIds | src/config_discovery.hpp:151-160 | exactly the ids that are gone, ascending |
| ConfigDiscovery.RecoverRacyScanDrops | src/config_discovery.hpp:180-194 | exactly the known non-zero ids missing from the scan whose source exists, ascending |
| ConfigDiscovery.RemovedAfterRecovery | src/config_discovery.hpp:162-194 | for every scan, after recovery the removed apps are exactly the known ones missing from the scan whose source is gone, and id 0 |
| ConfigDiscovery.ClassifyAppIds | src/config_discovery.hpp:419-443 | compatibility entries are disjoint from managed ones, and active is their union |
| NotifyThrottle.Throttle.Allow | src/notify.hpp:289-308 | the call extends the history by an outcome that follows from it, and the map stays the summary of the history |
| NotifyThrottle.PopupsAreSpaced | src/notify.hpp:299-305 | any two popups of a category are at least the cooldown apart, even if the clock steps back in between |
| NotifyThrottle.ShownExactlyWhenDue | src/notify.hpp:289-308 | a popup is shown exactly when all earlier popups of its category are at least the cooldown ago |
| NotifyThrottle.NothingIsLost | src/notify.hpp:289-308 | calls equal popups plus all reported counts plus what is pending |
| NotifyThrottle.CategoriesAreIndependent | src/notify.hpp:277-279 | the calls of one category taken alone have the same outcomes |
| NotifyThrottle.OutcomesAreDetermined | src/notify.hpp:289-308 | the outcomes of a sequence of calls are a function of the calls |
| AppDataLayout.DisplacementReadsBack | src/feats/appdata_layout.hpp:23-60 | the bytes of every 8-bit and 32-bit displacement read back to it, sign included |
| AppDataLayout.CmpDecodes | src/feats/appdata_layout.hpp:62-106 | every `cmp byte [base+disp], 0` decodes to its displacement |
| AppDataLayout.DecodedIsCmp | src/feats/appdata_layout.hpp:62-106 | whatever decodes as such starts with that instruction |
| AppDataLayout.DeriveIsExact | src/feats/appdata_layout.hpp:141-166 | a layout is derived exactly from a `cmp` and a `lea` that encode its offsets, when the fields are inside 0x1000 bytes and disjoint |
| AppDataLayout.DerivedFits | src/feats/appdata_layout.hpp:141-166 | from two encoded instructions a layout is derived exactly when their fields fit |
| AppDataLayout.FitsExactly | src/feats/appdata_layout.hpp:108-139 | the bounds and the disjointness of the fields in numbers |
| AppDataLayout.DecodeAnswers | src/feats/appdata_layout.hpp:62-166 | three instructions as an assembler writes them, and the layout they give |

## Left out

- Hooks, loader callbacks, process inspection, network calls, logging, YAML parsing and file input and output. File bodies are strings, clocks are arguments, and whether a lock is taken or a write succeeds is chosen by an argument or by the schedule.
- The parsing, signature and attestation of the remote catalog, which is an argument of `WarmStart`, and the rewriting of IPC roots before a pass. One module and one registry; a local catalog that is switched off, or a module whose identity cannot be read, is not modelled.
- The target of a jump or call is an argument of the model (`World.jump`); its disassembly is not modelled. Segments are taken as listed ascending and disjoint, and executable ones as readable.
- The big-endian variants of the base 64 tables, and the messages of its exceptions.
- SHA-256 of messages of 2^61 octets or more, whose bit length does not fit its field.
- `uint32_t` and `size_t` arithmetic that cannot wrap under the bounds checked before it is written with unbounded integers.
- KV1: map keys that are no scalars, for which the library throws, and the unused binary writer. The map of the YAML library is modelled as an ordered list of members.
- Publication: a pair of which only one member was restored counts as no pair, since its digest check fails. Other processes that write the same directory; a missed cache lock stands for them. The probe and validation memos, terminal sidecars, Proton mappings, tickets and DLC metadata that the same functions also touch.
- `persistAppBuffer` of src/feats/pics.cpp follows the same steps as `persistBuffer`; its additional refusals are refusals of the model.
- ProvisionCache.Provisioner.ReadValidatedCacheBuffer: the digest comparison and the synthetic marker are one Boolean argument.
- NotifyThrottle.Throttle.Allow: the suppressed count is unbounded here and an `int` in the source; the out-argument, which the source leaves alone when nothing is shown, is 0 here.
- ConfigDiscovery: scanning directories, reading manifests and parsing file names.
- The provider retries, depot pruning and owner queue of the provisioner.
