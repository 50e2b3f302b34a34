# OpenPass: a verified model of its stateful cores

OpenPass is a password manager whose MCP server lets AI agents read secrets
under supervision. This project models the parts of it that decide, remember
and keep records, and proves what they guarantee; `dafny verify dfyconfig.toml`
checks every file.

## What is modelled

**Audit log** (`AuditChain`, `AuditBlocks`, `AuditEntry`, `AuditFile`,
`AuditLogger`, `AuditRotations`, `AuditRetention`). A log is a chain of
records, each sealed by a MAC over its content and the MAC before it. The
verifier, the reader of the last entries and the recovery of the last MAC work
on byte files; the logger is an object that opens with rotation, logs, closes
and is opened again. The main results are about whole runs. An edit that keeps the stored MAC, and any deletion but
at the end, is reported at its place, and of all logs assembled from the
entries of a valid one only its prefixes verify fully. The verifier's weaker
answer `Valid`, which unsealed entries do not disturb, holds of such a log mixed
with unsealed entries if and only if every block of sealed entries is a prefix.
A run of sessions leaves every file fully verifiable at every point if and only
if each session was *safe*: it wrote nothing, or it opened with a rotation or
with the tail of the file in reach, and wrote only lines the scanner can take.
Every entry a run writes stays on some file if and only if no rotation takes the
name of an earlier one that had moved entries away.

**Rate limiter** (`RateLimiting`, `RateLimiterAdmissions`). A bounded table of
fixed-window counters with forced eviction, for every order in which the table
may be walked, and what any run can admit.

**Configuration tree** (`ConfigTree`, `ConfigNodes`, `ConfigKeys`). Nodes in
the heap, edited in place; the tree as a value, with its get and set laws; the
list of all leaf paths.

**Masking** (`CheckDigits`, `MatchIntervals`, `MatchMerging`, `Sanitizing`). The
IBAN and card checksums, with the number theory of which slips they catch, and
the sort, merge and splice of matches: when the result depends on the order of
the matches, and what of the covered text can be told from the output.

**MCP session state** (`Approval`, `Anomaly`, `Redaction`, `Leases`). What a
session remembers of approvals, what the anomaly window sees of the history,
which leaves of an entry are blanked, and when a lease is alive.

**Profiles, printers and parsers** (`AgentProfiles`, `StanzaParams`,
`SkillFile`, `Decimals`, `Hex`). Layered merging that should be stable under
save and reload, and round trips with their exact side conditions.

`Wrappers`, `Texts`, `ByteLines`, `Collections` and `Runs` hold what several
of them share.

## How it is modelled

Objects whose methods change their fields are classes (`Logger`, `LogDir`,
`RateLimiter`, `Node`, `Server`, `Detector`, `LeaseManager`, `Lease`,
`Target`, `AuditDir`), and every such method is tied to a specification
function of the old state. Loops are loops. Runs are sequences of events, and
the state after `k` events is a function of the run; times are integers that
do not decrease.

Code that is not part of the repository enters as a parameter with the
property it is used for:

- HMAC is a function of the previous MAC and the message, ideal when it is
  injective and never empty (`AuditChain.IdealMac`; `IdealMacExists` shows this
  can be met). Digests are therefore not bounded in length.
- JSON, YAML, base64 and the age and Argon2 primitives are lossless codecs and
  an authenticated encryption that opens only what was sealed. YAML's
  `omitempty` writes an optional field unless it is nil and a list unless it is empty.
- Regular expression matches are arbitrary intervals inside the text.
- Clocks, file ages, terminal replies and engine answers are arguments. Go's
  map iteration is an arbitrary choice at every step.

## What the proofs found

Where the code does not meet a property everywhere, the code is modelled as it
is, and the property is proved under its exact condition.

- Reopening a log longer than 4096 bytes whose last line, newline included, is
  4096 bytes or longer loses the chain: the window holds no newline but the
  final one, so the logger starts from no MAC and the next entry is reported
  as tampered (`AuditLogger.ReopenRecovers`,
  `AuditLogger.LongLineSpoilsNextSession`).
- Changing an entry and blanking its MAC is reported at the next entry, and not
  at all when it is the last; a log stripped of every MAC is `Valid` whatever it
  says (`AuditBlocks.BlankedRecordReported`, `AuditBlocks.StrippedLogIsValid`).
  `AuditBlocks.ValidIffPrefixesInBlocks` says exactly what `Valid` rules out.
- Retention takes every name that starts with an agent's rotated prefix, so the
  live log of an agent called "x.log.rotated.y" counts as a backup of agent "x"
  (`AuditRetention.DottedNameCaught`).
- The verifier stops silently at the first line longer than 65535 bytes
  (`AuditLogger.ScanRender`); "clean" here therefore also asks that every line
  was read.
- Two rotations within one second share a name, and the second replaces the
  first: with a size limit of zero, three openings can leave nothing of a whole
  session, while every file verifies (`AuditRotations.SameSecondDestroysLog`).
  `AuditRotations.NothingLostIff` gives the exact condition for every run.
- Under a negative `maxBackups`, which the configuration file may hold, retention
  removes every rotated file and then panics
  (`AuditRetention.AuditDir.EnforceRetention`).
- When some files cannot be removed, enforcing retention a second time can take a
  file the first time spared, if ages are equal (`AuditRetention.TiedFileGoesLater`;
  `AuditRetention.RetentionSettlesIff` is exact).
- The rate limiter never evicts the empty key while it is live, so no cap bounds
  the table: every new key can add an entry (`RateLimiting.EmptyKeyOverflows`).
  `RateLimiting.AllowKeepsCapIff` says from the table before a call when. A key's
  admissions in any closed interval of one window length are at most
  `2 * limit - 1`, one less than expected; that is attained for every limit and
  window of at least 1, while a window of zero admits at most `limit` per instant.
- Two neighbours in an IBAN can be swapped unnoticed when one is a letter worth
  eleven times the other, a digit: B1, M2 and X3.
- The merge of matches depends on the order of those that start together unless
  these look alike, where no other match spans their start
  (`Sanitizing.MergeOrderIff`). For the spans alone it does not when all matches
  are nonempty; an empty match beside a nonempty one can add a mask.
- A merged match keeps the value of the match that opened it, and that value goes
  to the reference resolver; it is the covered text exactly when no match starts
  before the end of that one and ends behind it (`Sanitizing.CarriedValueIff`).
- Unsealing a handle after a plain "yes" is remembered for the session like a
  "remember" (`Approval.PlainYesIsRemembered`).
- The tool-chain rule scans backwards and stops at the first old event, so an
  event recorded out of order can hide a chain: exactly when every recent large
  read has an old event behind it (`Anomaly.ChainMissedIff`). Off-hours alerts,
  of low severity, are reported before graver ones: so is a sweep at night
  (`Anomaly.NightSweepReportedLow`).
- A redaction pattern that names a map does not reach the fields inside it, and
  a redacted entry loses its classification, so it is no longer sealed
  (`Redaction.SealedIff`).
- Saving and reloading changes a profile in exactly four cases: a null tier or
  null exposure over a base that is silent on exposure; a null approval mode
  where something else determines one; a required or waived approval that reaches
  the profile through an alias or a merge key, over a base without a mode; and an
  explicitly empty list of executables under the standard tier. After one reload
  nothing changes any more. The hooks of a profile are never loaded, and lost on
  the next save (`AgentProfiles.HooksNeverLoad`).
- A profile written as an alias of another loads without its tier, its approval
  mode and its lists, because these count only under keys of the profile's own
  mapping; an aliased `tier: read-only` leaves value tools exposed
  (`AgentProfiles.AliasDropsTier`). When an alias loads like the original is
  settled exactly (`AgentProfiles.AliasLoadsAlikeIff`).
- Wrapping a key with zero memory succeeds, and nothing can open the stanza
  again. Parameter numbers wrap around at 2^32.
- In a skill file with CRLF line ends, a line of dashes in the body that ends in LF
  is taken for the end of the header (`SkillFile.LfCloseWins`).
- A rendered skill file fails its own hash check when the body contains CRLF or
  starts with a line break. Forcing an install over an unmanaged file keeps no
  backup.
- Renewing a lease returns a secret with the new duration but leaves the lease
  to expire as before (`Leases.RenewalsInvisible`), so the secret can outlive
  its lease (`Leases.RenewalOutlivesLeaseIff`); and a lookup returns expired
  secrets until the next cleanup.
- `itoa` prints the smallest 64-bit integer as a bare minus sign.

## Model

| member | source | states |
|---|---|---|
| `AuditChain.CleanIffChained` | internal/audit/audit.go:676-734 | the first n entries verify if and only if each carries the MAC of its content under its predecessor's MAC |
| `AuditChain.CleanIffReport` | internal/audit/audit.go:676-734 | the verifier's result says Valid with Verified = Total exactly when every entry is genuine |
| `AuditChain.PrefixOfClean` | internal/audit/audit.go:676-734 | every prefix of a valid log is valid: cutting a log at its end goes unnoticed |
| `AuditChain.ChainMacsDistinct` | internal/audit/audit.go:657-665 | with an ideal MAC, the MACs along one chain are pairwise distinct and differ from "no MAC" |
| `AuditChain.IdealMacExists` | internal/audit/audit.go:657-665 | the idealisation of the MAC can be met, so nothing below is vacuous |
| `AuditChain.EditedRecordDetected` | internal/audit/audit.go:676-734 | editing record i under its old MAC gives FirstBadIdx = i, Verified = i, Tampered = n - i |
| `AuditChain.DeletedRecordDetected` | internal/audit/audit.go:676-734 | deleting a non-last record i gives FirstBadIdx = i, and every later entry is bad |
| `AuditChain.OnlyPrefixesVerify` | internal/audit/audit.go:676-734 | of all logs assembled from the entries of one valid log, by deleting, repeating and reordering, exactly its prefixes verify |
| `AuditChain.OutOfPlaceIsForged` | internal/audit/audit.go:709-726 | an entry is rejected under any trusted MAC but its predecessor's |
| `AuditBlocks.ValidIffBlocksChained` | internal/audit/audit.go:700-733 | of any log, Valid holds if and only if every block of entries between unsealed ones is a chain of its own, and otherwise FirstBadIdx is the first entry out of its block |
| `AuditBlocks.ValidIffPrefixesInBlocks` | internal/audit/audit.go:700-733 | of all logs made from the entries of one chain and unsealed records, Valid holds if and only if every block of sealed entries is a prefix of the chain; otherwise FirstBadIdx is the first entry out of place |
| `AuditBlocks.BlankedRecordReported` | internal/audit/audit.go:708-726 | changing entry i and blanking its MAC gives FirstBadIdx = i + 1 with everything behind it bad, and for the last entry Valid with nothing tampered |
| `AuditBlocks.StrippedLogIsValid` | internal/audit/audit.go:708-711 | a log without any MAC is Valid with every entry counted as legacy, whatever it says |
| `AuditBlocks.BlankedEntryReported` | internal/audit/audit.go:676-734 | the same of JSON entries: any change of entry i that also blanks its MAC |
| `AuditEntry.VerifyEntries` | internal/audit/audit.go:700-733 | the counting loop: Total, Verified, Tampered, Legacy, Valid and FirstBadIdx are those of the verdicts, entry by entry, including the reset after unsealed entries |
| `AuditEntry.JudgeByHex` | internal/audit/audit.go:657-665 | comparing decoded hex decides exactly whether the stored MAC is the computed one |
| `AuditEntry.EditedEntryDetected` | internal/audit/audit.go:676-734 | changing the content of entry i of a valid log, keeping its stored MAC, is reported at i and spoils every later entry |
| `AuditFile.ParseTailEntries` | internal/audit/audit.go:502-531 | the entries from the first complete line of a window on, blank and malformed lines skipped |
| `AuditFile.WindowIsSuffix` | internal/audit/audit.go:502-531 | what any window shows is a suffix of the entries of the whole file, and all of them when it starts at the beginning |
| `AuditFile.WindowHoldsWholeLines` | internal/audit/audit.go:502-531 | a window holds every entry from the first line that starts inside it on |
| `AuditFile.LastNEntries` | internal/audit/audit.go:446-497 | for every file and every n, the doubling reader terminates and returns the last min(n, total) entries obtained by parsing the whole file |
| `AuditFile.ReadLastHMAC` | internal/audit/audit.go:583-655 | terminates, and returns the MAC on the last line its window shows, none, or the hex error |
| `AuditFile.VerifyLog` | internal/audit/audit.go:676-734 | the report is that of the entries the line scanner delivers; an empty key is refused |
| `AuditFile.ScannedToFirstLong` | internal/audit/audit.go:676-699 | of any text, with or without a final newline, the scanner delivers the entries on the lines before the first one longer than 65535 bytes |
| `AuditFile.ScannedIsWhole` | internal/audit/audit.go:676-699 | when no line is longer than 65535 bytes, those are all entries of the file |
| `AuditLogger.Logger.New` | internal/audit/audit.go:165-237 | opening moves the live file exactly when its size or its age in nanoseconds is due, and the logger continues from the MAC recovered from it; it does not open on a refused agent name, without directory or key, on a failed rotation, or on bad hex |
| `AuditLogger.Logger.RotateIfNeeded` | internal/audit/audit.go:277-317 | the live file moves, whole, to the rotated name of that second exactly when its size reaches the limit or its age the days allowed, in bytes and nanoseconds, and the rename succeeds; a failed rename or reopening is an error |
| `AuditLogger.DueStaysDue` | internal/audit/audit.go:287-297 | a file due for rotation stays due while it grows and ages |
| `AuditLogger.RefusedNames` | internal/audit/audit.go:166-171 | agent names with a separator or two dots in a row, and a single dot, are refused; names of other characters, and single dots inside, are not |
| `AuditLogger.Logger.LogEntry` | internal/audit/audit.go:239-275 | one sealed line is appended and its MAC remembered; a closed logger writes nothing |
| `AuditLogger.SealAddsTimeAndMac` | internal/audit/audit.go:244-253 | sealing fills in a missing time and the MAC of everything else under the MAC before, and changes nothing more |
| `AuditLogger.Logger.Close` | internal/audit/audit.go:569-581 | key and MAC are forgotten |
| `AuditLogger.ScanRender` | internal/audit/audit.go:676-699 | the scanner reads back exactly the entries before the first line longer than 65535 bytes |
| `AuditLogger.ScanUnterminated` | internal/audit/audit.go:687-699 | a last line without its newline is delivered like any other |
| `AuditLogger.EditedLastLineReported` | internal/audit/audit.go:687-726 | an edit of the last entry under its old MAC is reported at its index also when the file lacks its final newline |
| `AuditLogger.FileCleanIffReport` | internal/audit/audit.go:676-734 | a file is clean exactly when the report is Valid with Total and Verified equal to its number of lines |
| `AuditLogger.ReopenRecovers` | internal/audit/audit.go:583-655 | reopening a valid file recovers the MAC held before closing if the tail is in reach, and otherwise none at all |
| `AuditLogger.UnterminatedRecovered` | internal/audit/audit.go:583-655 | the MAC on a last line that lacks its newline is recovered whatever its length |
| `AuditLogger.TailInReachIffLastLineShort` | internal/audit/audit.go:583-655 | the tail is in reach if and only if the file is at most 4096 bytes or its last line, newline included, is at most 4095 |
| `AuditLogger.SealedExtendsChain` | internal/audit/audit.go:239-275 | entries sealed from the last MAC of a chain extend that chain |
| `AuditLogger.SealedFromNothingBreaks` | internal/audit/audit.go:239-275 | entries sealed from a forgotten MAC break a nonempty chain |
| `AuditLogger.LostChainReported` | internal/audit/audit.go:676-734 | entries sealed from a forgotten MAC are reported: Valid is false, and FirstBadIdx is the first of them |
| `AuditLogger.SessionKeepsIffSafe` | internal/audit/audit.go:165-275 | a session keeps every file verifiable if and only if it writes nothing, or opens with rotation or the tail in reach and writes no line beyond the scanner |
| `AuditLogger.RunCleanIffSessionsSafe` | internal/audit/audit.go:165-317 | over any run of open, rotate, log, close and reopen with one key: every file verifies at every point if and only if every session was safe |
| `AuditLogger.CompactRunClean` | internal/audit/audit.go:583-734 | the promised case: while every line with its newline is at most 4095 bytes, every file of every run verifies completely |
| `AuditLogger.LongLineSpoilsNextSession` | internal/audit/audit.go:583-655 | the failing family: after one entry whose line exceeds 4096 bytes, any entry of the next session breaks the live file |
| `AuditRotations.RotatedIsLastMove` | internal/audit/audit.go:277-317 | over any run, a rotated file is exactly the live file moved by the last rotation under its stamp, and there is one for every such stamp |
| `AuditRotations.WrittenIsKeptOrReplaced` | internal/audit/audit.go:239-317 | conservation over any run: the entries on all files and those replaced by rotations are together the entries written, with multiplicity |
| `AuditRotations.NothingLostIff` | internal/audit/audit.go:299-306 | over any run every entry written is still on some file if and only if no rotation takes the stamp of an earlier one that had moved entries away |
| `AuditRotations.SameSecondDestroysLog` | internal/audit/audit.go:277-317 | the failing input: under a size limit of zero, two openings in one second leave nothing of the session before, while every file verifies at every point |
| `AuditRetention.AuditDir.EnforceRetention` | internal/audit/audit.go:322-384 | exactly the oldest rotated files over the limit, and those too old, are removed, but for files that cannot be; under a negative limit it removes all and panics |
| `AuditRetention.RetentionHolds` | internal/audit/audit.go:322-384 | afterwards at most MaxBackups rotated files are left, none too old, apart from files that cannot be removed, and no other file was touched |
| `AuditRetention.YoungRemovedOnlyForNewer` | internal/audit/audit.go:353-369 | a file that is not too old goes only if MaxBackups other rotated files are at least as new |
| `AuditRetention.OwnFilesOnly` | internal/audit/audit.go:327-345 | for agent names without dots, the files counted are those rotation made for this agent, and never a live log |
| `AuditRetention.DottedNameCaught` | internal/audit/audit.go:327-345 | the failing input: the live log of agent "x.log.rotated.y" counts as a rotated file of agent "x" |
| `AuditRetention.RetentionSettlesIff` | internal/audit/audit.go:322-384 | whichever files cannot be removed, enforcing again at once removes nothing, in whatever order equal times are listed, if and only if every removable file left has as many strictly older ones before it as there are over the limit |
| `AuditRetention.RetentionSettles` | internal/audit/audit.go:322-384 | so enforcing again removes nothing when every removal succeeds, and otherwise when no removable file is exactly as old as one that is not |
| `AuditRetention.TiedFileGoesLater` | internal/audit/audit.go:347-366 | the failing input: of three files of one age, with room for one and the oldest listed stuck, the second enforcement takes the file the first one spared |
| `RateLimiting.RateLimiter.Allow` | internal/mcp/auth.go:81-104 | the answer and the whole new table and counters, for any legal choice of evicted entries |
| `RateLimiting.RateLimiter.EvictOldest` | internal/mcp/auth.go:108-135 | expired entries go until there is room; if they do not make room, one live entry that resets first goes too; counted |
| `RateLimiting.RateLimiter.Cleanup` | internal/mcp/auth.go:137-147 | exactly the expired entries go |
| `RateLimiting.RateLimiter.CleanupOnce` | internal/mcp/auth.go:172-188 | exactly the expired entries go, and are counted |
| `RateLimiting.EvictionRemovesOne` | internal/mcp/auth.go:108-135 | from a table at its cap one entry goes (or none, only for the empty key); a live one only if nothing was expired, and then one of minimal reset time |
| `RateLimiting.AllowKeepsCapIff` | internal/mcp/auth.go:81-135 | told from the table before the call: every eviction a call may make keeps the cap, or the size of a table already past it, unless its key is new, the table full, nothing expired, and a live empty key among those that reset first |
| `RateLimiting.TableNeverExceedsCap` | internal/mcp/auth.go:81-135 | over any run under nonempty keys the table never exceeds maxEntries |
| `RateLimiting.EmptyKeyOverflows` | internal/mcp/auth.go:124-134 | for every cap and every n a legal run that starts with the empty key reaches n entries, and past the cap no legal choice of victims removes anything |
| `RateLimiterAdmissions.AdmissionsBounded` | internal/mcp/auth.go:81-104 | over any run in which the key is never evicted live: windows open more than one window length apart, admit at most max(limit, 1) each, and any closed interval of one window length holds at most 2 * max(limit, 1) - 1 admissions |
| `RateLimiterAdmissions.BoundIsAttained` | internal/mcp/auth.go:81-104 | for every limit and window of at least 1, and every cap, a run attains that interval bound |
| `RateLimiterAdmissions.ZeroWindowBound` | internal/mcp/auth.go:81-104 | with a window of zero at most max(limit, 1) requests are admitted in one instant, so the bound is not attained from limit 2 on |
| `RateLimiterAdmissions.HistoryIsComplete` | internal/mcp/auth.go:81-104 | the history counted is exactly what Allow admitted |
| `ConfigNodes.NavigateToNode` | internal/config/dottedpath.go:249-274 | returns the very node of the tree at the path, or the error naming the kind or the missing key |
| `ConfigTree.LookupStopsAt` | internal/config/dottedpath.go:256-272 | reading fails at the first missing key, named with the path to it, or below a node that is no mapping, named with its kind |
| `ConfigNodes.SetNodeAtPath` | internal/config/dottedpath.go:276-349 | edits the node tree in place into the tree of the write: of the nodes there were at most one changes, by one child replaced or two appended; new nodes are fresh, the tree stays unshared, and errors are those of the code |
| `ConfigNodes.EditContent` | internal/config/dottedpath.go:308-343 | assigning one node's content changes the tree at that place only |
| `ConfigTree.GetAfterSet` | internal/config/dottedpath.go:187-198 | reading at or below a path just written gives the written value, or what lies in it |
| `ConfigTree.SetTwice` | internal/config/dottedpath.go:276-349 | writing twice equals writing the last value |
| `ConfigTree.SetKeepsOtherPaths` | internal/config/dottedpath.go:276-349 | a path that neither extends nor is extended by the written one keeps its node, or still fails |
| `ConfigTree.ChildOfWithChild` | internal/config/dottedpath.go:281-347 | replacing or appending one key is visible under that key only |
| `ConfigTree.NewPairAtEnd` | internal/config/dottedpath.go:296-347 | a new key is a plain string node right before its value at the end, and new mappings are empty |
| `ConfigKeys.GetConfigValue` | internal/config/dottedpath.go:187-190 | reading by dotted path |
| `ConfigKeys.SetConfigValue` | internal/config/dottedpath.go:195-198 | writing by dotted path, in place |
| `ConfigKeys.DotSeparates` | internal/config/dottedpath.go:187-198 | a dot separates one key from the next |
| `ConfigKeys.PutThenGet` | internal/config/dottedpath.go:187-198 | setting a dotted path and reading it back gives the value, in a mapping or a document around one |
| `ConfigKeys.PutTwice` | internal/config/dottedpath.go:195-198 | setting a dotted path twice is setting it once, to the last value |
| `ConfigKeys.PutKeepsOthers` | internal/config/dottedpath.go:187-198 | every other dotted path keeps its node, or still has none |
| `ConfigKeys.WalkConfigTree` | internal/config/dottedpath.go:212-232 | appends the dotted paths of the leaves in order, for every kind of node |
| `ConfigKeys.ConfigTreeKeys` | internal/config/dottedpath.go:202-209 | the list for the whole tree |
| `ConfigKeys.ListedIffLeaf` | internal/config/dottedpath.go:202-232 | on well-keyed trees a path is listed if and only if reading it gives a node that is no mapping |
| `ConfigKeys.ListedOnce` | internal/config/dottedpath.go:202-232 | no path is listed twice |
| `CheckDigits.RollingRemainder` | internal/masking/validator.go:86-92 | the rolling remainder is the whole number modulo 97, for any length |
| `CheckDigits.ExpandLetters` | internal/masking/validator.go:72-84 | the digit string built from letters and digits denotes the number of ISO 13616 |
| `CheckDigits.CodesInOrder` | internal/masking/validator.go:74-84 | digits stand for themselves and the letters, in order, for 10 to 35 |
| `CheckDigits.ValidateIBAN` | internal/masking/validator.go:53-93 | accepts exactly the cleaned strings of the right length and format with remainder 1 |
| `CheckDigits.ValidIbanIff` | internal/masking/validator.go:53-93 | in plain numbers: accepted when account, country and check digits, in this order, leave 1 modulo 97 |
| `CheckDigits.OnePairOfCheckDigits` | internal/masking/validator.go:67-93 | for every country and account exactly one pair of check digits from 02 to 98 is valid: 98 minus the remainder with 00 in their place |
| `CheckDigits.SpacesAndCaseIgnored` | internal/masking/validator.go:54-55 | spaces and the case of letters make no difference, and nothing else is dropped or changed |
| `CheckDigits.SubstitutionNoticed` | internal/masking/validator.go:86-93 | replacing one character by another of its kind always changes the remainder |
| `CheckDigits.SwapUnnoticedIff` | internal/masking/validator.go:86-93 | swapping neighbours leaves the remainder the same exactly when they are equal or a letter is worth eleven times the digit |
| `CheckDigits.IbanSubstitutionRejected` | internal/masking/validator.go:53-93 | from a valid IBAN every same-kind substitution is rejected |
| `CheckDigits.IbanSwapAcceptedIff` | internal/masking/validator.go:53-93 | from a valid IBAN a swap of neighbours in the rearranged string is accepted exactly for equal or ambiguous neighbours |
| `CheckDigits.ValidateLuhn` | internal/masking/validator.go:12-41 | accepts by the Luhn sum over byte positions of the kept digits, of any script, 13 to 19 bytes long; on ASCII text exactly the strings of 13 to 19 digits whose Luhn sum is divisible by 10 |
| `CheckDigits.ValidCardIff` | internal/masking/validator.go:12-41 | on digits the sum is the one taken by hand from the right, the last digit plain, every second one doubled |
| `CheckDigits.WidthSuffices` | internal/masking/validator.go:16-26 | the bytes counted for a character are those UTF-8 needs, and no more |
| `CheckDigits.CardSubstitutionRejected` | internal/masking/validator.go:12-41 | every single-digit error is rejected |
| `CheckDigits.CardSwapAcceptedIff` | internal/masking/validator.go:12-41 | a swap of neighbouring digits is accepted exactly when they are equal or 0 and 9 |
| `Sanitizing.SortByStart` | internal/masking/sanitizer.go:241-247 | the in-place exchange sort: sorted by start, a permutation, and the very order the exchanges give |
| `MatchMerging.Deduplicate` | internal/masking/sanitizer.go:252-269 | from sorted matches, the sorted disjoint merge in which every match lies and every interval is opened and spanned by matches; in any case the fold of the merge step |
| `MatchMerging.MergeUniqueIff` | internal/masking/sanitizer.go:241-269 | matches that start together can trade places without a difference `look` can see if and only if those at a position no match spans look alike |
| `Sanitizing.FindMatches` | internal/masking/sanitizer.go:217-250 | collect, sort and merge: a merge of all raw matches; any other sorted listing of them gives the same spans, and the same matches, whenever those opening an interval together agree in that |
| `Sanitizing.FoundCoversSecrets` | internal/masking/sanitizer.go:217-250 | a position is covered by what is found if and only if it lies in some interval of some pattern that has no validator or whose validator accepts the text there |
| `Sanitizing.RawAreFindings` | internal/masking/sanitizer.go:221-239 | the matches collected are exactly these accepted findings, with name, severity, place and text |
| `MatchIntervals.MergeCoversSame` | internal/masking/sanitizer.go:252-269 | the merged intervals cover exactly the positions the matches cover |
| `MatchIntervals.MergeSpansUnique` | internal/masking/sanitizer.go:241-269 | nonempty matches have one merge: any two have the same number of intervals, with the same starts and ends |
| `MatchIntervals.MergeOfPermutation` | internal/masking/sanitizer.go:241-269 | which lists of intervals count as a merge does not depend on the order of the matches |
| `Sanitizing.MergeOrderIff` | internal/masking/sanitizer.go:241-269 | all orders of the matches come out the same, as `look` sees them, if and only if matches that start together at a position no match spans look alike |
| `Sanitizing.SpansAgreeIff` | internal/masking/sanitizer.go:252-269 | for the spans that condition is: no empty match starts together with a nonempty one at a position no match spans |
| `Sanitizing.CarriedValueIff` | internal/masking/sanitizer.go:252-269 | an interval carries the value of the match that opens it, with none but empty ones before it there; that is the text it covers if and only if no raw match starts before the end of this one and ends behind it |
| `Sanitizing.Sanitize` | internal/masking/sanitizer.go:301-328 | the output is the uncovered characters in order, with one mask at the start of each merged interval; the same for any order of equal starts if their masks agree |
| `Sanitizing.CoveredTextIsInvisible` | internal/masking/sanitizer.go:301-328 | two texts with matches at the same places under the same masks, that differ only where a match covers them, give equal outputs |
| `Sanitizing.AnswersAlikeMaskAlike` | internal/masking/sanitizer.go:313-322 | findings at the same places, which the resolver answers alike if it is asked, are masked alike |
| `Sanitizing.OnlyPlainTextCopied` | internal/masking/sanitizer.go:301-328 | the output consists of masks and of characters copied in order, and a character is copied if and only if it lies in no accepted finding |
| `Sanitizing.MaskTellsAnswerOnly` | internal/masking/sanitizer.go:317-323 | a mask says nothing of the covered text beyond the answer of the resolver |
| `Sanitizing.MasksNamePaths` | internal/masking/sanitizer.go:317-322 | a known value is replaced by its reference, which determines the path, an unknown one by the plain mask |
| `Sanitizing.PlainMask` | internal/masking/sanitizer.go:307-310 | without references the mask is the caller's, or three stars |
| `Approval.Server.RequireApproval` | internal/mcp/approval_helper.go:31-117 | the outcome, the cache, the counter and the audit steps of one request; put to the user it succeeds exactly on the replies "y", "yes", "r" and "remember" |
| `Approval.RequestApproval` | internal/mcp/approval.go:137-199 | approved exactly on "y", "yes", "r" or "remember", remembered exactly on the last two if that is allowed, failed exactly without a reply |
| `Approval.ReplyDecides` | internal/mcp/approval_helper.go:52-114 | which replies approve, which are remembered below critical risk, and what is then cached, counted and recorded; any other reply is refused and changes nothing |
| `Approval.UnansweredFails` | internal/mcp/approval_helper.go:48-100 | under "deny", without a terminal or without a reply a call fails and nothing is cached or counted |
| `Approval.Server.UnsealGate` | internal/mcp/tools_unseal.go:59-73 | the gate before unsealing a handle, which stores the handle on any success and records any failure; without an agent it panics |
| `Approval.Server.IsRemembered` | internal/mcp/server.go:36-40 | membership in the cache |
| `Approval.Server.SetRemembered` | internal/mcp/server.go:42-46 | one key more in the cache |
| `Approval.Server.InvalidateApprovalCache` | internal/mcp/server.go:263-270 | the cache is emptied and nothing else changes |
| `Approval.CacheKeyInjective` | internal/mcp/server.go:57-63 | keys agree exactly on equal tools and equal normalised paths, for tool names without a colon |
| `Approval.HasSchemeIff` | internal/mcp/server.go:57-63 | a path is taken for a URI exactly when it contains "://" |
| `Approval.ColonsCollide` | internal/mcp/server.go:57-63 | why colon-free names are asked for: with a colon in a tool name two different requests would share a key; no tool of the server has such a name |
| `Approval.CacheIff` | internal/mcp/approval_helper.go:61-108 | at every point of every run the cache holds exactly what was stored since the last invalidation |
| `Approval.RecalledIff` | internal/mcp/approval_helper.go:52-110 | in prompt mode a call succeeds unasked if and only if there is a terminal, its tool is below critical, and an earlier prompt for the same tool and path was granted with "remember" since the last invalidation |
| `Approval.UnsealSilentIff` | internal/mcp/tools_unseal.go:59-73 | an unseal passes unasked exactly when its key was stored since the last invalidation |
| `Approval.PlainYesIsRemembered` | internal/mcp/tools_unseal.go:59-73 | the reply "y" or "yes" to unsealing a handle is remembered for that handle until an invalidation |
| `Approval.UnguardedIff` | internal/mcp/approval_helper.go:31-51 | for the modes a loaded configuration can have, a run of calls passes unasked from first to last exactly when the mode is "none", or unset without required approval, and then nothing is remembered, counted or recorded |
| `Approval.CounterIsGrants` | internal/mcp/approval_helper.go:79-114 | the counter equals the number of granted prompts, and the audit log holds one granted step per grant and one requested step per prompt |
| `Anomaly.Detector.AddEvent` | internal/anomaly/detector.go:244-251 | the window is always the last maxEvents events of the history |
| `Anomaly.Detector.DetectSweep` | internal/anomaly/rules.go:56-85 | fires exactly when the distinct recent paths reach the threshold |
| `Anomaly.Detector.DetectRateAnomaly` | internal/anomaly/rules.go:89-113 | fires exactly when the agent's recent calls exceed the limit |
| `Anomaly.Detector.DetectToolChain` | internal/anomaly/rules.go:118-146 | fires exactly on the latest large read the backward scan reaches before its break |
| `Anomaly.Detector.Evaluate` | internal/anomaly/detector.go:255-275 | all alerts, in rule order |
| `Anomaly.Detector.Check` | internal/anomaly/detector.go:223-240 | the first alert, all alerts to the hooks, and the event in the window |
| `Anomaly.SweepFiresIff` | internal/anomaly/rules.go:56-85 | a sweep alert, with their number, exactly when the different paths of the events in the time window reach the threshold |
| `Anomaly.RateFiresIff` | internal/anomaly/rules.go:89-113 | a rate alert, with their number, exactly when the calls of the agent in the time window exceed the limit |
| `Anomaly.ChainFiresIff` | internal/anomaly/rules.go:118-146 | a chain alert exactly when a command is run by an agent with a large enough read behind the last old event |
| `Anomaly.ChainAlertQuotesLatest` | internal/anomaly/rules.go:123-143 | its figure is the size of the latest such read |
| `Anomaly.EntryAlertsIff` | internal/anomaly/rules.go:12-52 | canary and off-hours alerts exactly for calls that touch a canary entry, or any entry then |
| `Anomaly.OffHoursRoundTheClock` | internal/anomaly/rules.go:26-40 | the hours from the start round the clock up to the end, past midnight too |
| `Anomaly.AlertsNameTheCall` | internal/anomaly/rules.go:12-146 | every alert names its call, and its entry unless it is a rate alert |
| `Anomaly.WindowAlertsAreReal` | internal/anomaly/rules.go:56-146 | whatever a rule sees in the window it sees in the full history |
| `Anomaly.BreakLosesNothing` | internal/anomaly/rules.go:123-128 | in time order the early break loses no recent event |
| `Anomaly.BreakLosesNothingIff` | internal/anomaly/rules.go:123-128 | the early break loses no recent event if and only if every event behind a recent one is recent |
| `Anomaly.ChainMissedIff` | internal/anomaly/rules.go:118-146 | the rule misses a tool chain if and only if there is one and every recent large read has an older event than the time window behind it |
| `Anomaly.WindowHoldsRecentIff` | internal/anomaly/detector.go:244-251 | in time order the window holds every recent event if and only if there are at most maxEvents of them |
| `Anomaly.SeesWholeHistory` | internal/anomaly/detector.go:223-275 | with calls in time order and room for each rule's time window, the alerts are exactly those of the full history |
| `Anomaly.LateArrivalHidesChain` | internal/anomaly/rules.go:123-128 | out of time order the break can hide a tool chain |
| `Anomaly.SmallWindowNeverRates` | internal/anomaly/rules.go:89-113 | a window of at most rateLimit events can never raise the rate alert |
| `Anomaly.GravestReportedIff` | internal/anomaly/detector.go:223-275 | when the alert returned is the gravest one: exactly |
| `Anomaly.NightSweepReportedLow` | internal/anomaly/detector.go:255-275 | the failing input: under any thresholds, a sweep at night is returned as an off-hours alert of low severity |
| `Decimals.Itoa` | internal/anomaly/rules.go:150-170 | prints every 64-bit integer exactly and within its buffer, except the smallest, which prints as a bare sign |
| `Redaction.ShouldRedactField` | internal/mcp/server_authorize.go:278-294 | true exactly when some pattern matches the field |
| `Redaction.RedactValue` | internal/mcp/server_authorize.go:339-362 | the redacted value, in whatever order a map is walked |
| `Redaction.RedactEntry` | internal/mcp/server_authorize.go:322-337 | the redacted entry; unchanged when there is nothing to redact by |
| `Redaction.FindRedacted` | internal/mcp/server_authorize.go:339-362 | path by path: the shape is kept, and a leaf is blanked if and only if some pattern matches its full dotted path |
| `Redaction.EntryLeafBlankedIff` | internal/mcp/server_authorize.go:322-362 | a leaf of an entry is blanked exactly when its dotted path, "*", or a prefix of it followed by ".*" is listed, and is unchanged otherwise |
| `Redaction.EntryRedactionsCompose` | internal/mcp/server_authorize.go:322-362 | redacting is idempotent, and by A then by B is by A followed by B, for all lists of patterns |
| `Redaction.PlainPatternSkipsMaps` | internal/mcp/server_authorize.go:339-362 | plain patterns naming a map reach nothing inside it |
| `Redaction.WildcardBlanksBelow` | internal/mcp/server_authorize.go:350-358 | a wildcard pattern for a map blanks every leaf inside it, at any depth |
| `Redaction.SealedIff` | internal/mcp/tools_get.go:147-160 | an entry is still sealed after redaction only if there was nothing to redact by, because redaction resets its classification |
| `Redaction.SealedFromSecretOn` | internal/mcp/tools_get.go:160 | sealed are the entries classified secret or higher, unless the agent unseals on its own |
| `AgentProfiles.ApplyTierPreset` | internal/config/presets.go:71-92 | a known tier overwrites capabilities, approval and its executables; an unknown one nothing |
| `AgentProfiles.TierGrants` | internal/config/presets.go:14-64 | what each tier grants where the file says nothing else, capability by capability |
| `AgentProfiles.UnknownTierGrantsNothing` | internal/config/presets.go:71-75 | an unknown tier is recorded and changes only whether value tools are exposed |
| `AgentProfiles.MergeAgentProfile` | internal/config/config.go:375-460 | the merged profile, field by field, from values and from the keys that are there, which an alias or merge key tells apart |
| `AgentProfiles.FileWins` | internal/config/config.go:375-460 | a value the file gives is the value loaded, field by field, over any base and tier |
| `AgentProfiles.SilentFileKeepsBase` | internal/config/config.go:375-460 | a profile that says nothing keeps the base, with value tools exposed |
| `AgentProfiles.MergeAgentProfiles` | internal/config/config.go:265-272 | all agents of the file over their bases, plus built-in and default ones, in any order |
| `AgentProfiles.EnsureAgentDefaults` | internal/config/config.go:488-500 | names are kept and the default agent is there |
| `AgentProfiles.DefaultsHoldBack` | internal/config/config.go:966-998 | which agents are built in, which of them may write, and that all others hold back and deny approvals |
| `AgentProfiles.SavedSays` | internal/config/config.go:838-903 | every value of a profile is written under its own key |
| `AgentProfiles.ReloadStableIff` | internal/config/config.go:375-460 | load, save, load gives the first profile again if and only if none of four checkable exceptions applies |
| `AgentProfiles.NoNullsReload` | internal/config/config.go:375-460 | without explicit nulls everything survives but an emptied executables list of the standard tier and a mode left open by a requirement without its key, each lost exactly then |
| `AgentProfiles.SettlesAfterOneReload` | internal/config/config.go:838-903 | from the first reload on, saving and loading change nothing |
| `AgentProfiles.AgentsReloadIff` | internal/config/config.go:265-272 | the same for the whole agents section, built-in and default agents included |
| `AgentProfiles.AliasLoadsAlikeIff` | internal/config/config.go:291-323 | an alias of a profile loads like the profile if and only if this names no tier and no list, sets the mode to that of the base, and does not close value tools by a null |
| `AgentProfiles.AliasDropsTier` | internal/config/config.go:378-386 | an aliased tier is dropped, and value tools are exposed unless the profile itself says otherwise |
| `AgentProfiles.AliasedRequirementSetsModeLater` | internal/config/config.go:410-420 | the failing input: an aliased requirement over a base without a mode leaves the mode open on the first load and sets it on the second |
| `AgentProfiles.ReloadStaysValid` | internal/config/config.go:462-486 | what was loaded validly reloads validly |
| `AgentProfiles.TiersAndBasesAreValid` | internal/config/config.go:462-486 | built-in agents and tiers are valid, so only a mode the file spells out can be refused |
| `AgentProfiles.ValidModes` | internal/config/config.go:462-486 | which spelt-out modes are accepted |
| `AgentProfiles.HooksNeverLoad` | internal/config/config.go:375-460 | whatever hooks the file names, no loaded agent has any, and saving it writes none |
| `StanzaParams.ParseUint32` | internal/crypto/symmetric.go:176-185 | the decimal value modulo 2^32, or an error on any other character |
| `StanzaParams.ParseArgon2idParams` | internal/crypto/symmetric.go:137-174 | the parameters of a text, or its first error |
| `StanzaParams.ParsePrinted` | internal/crypto/symmetric.go:66-174 | what parsing makes of any three printed numbers |
| `StanzaParams.ParsedIsSound` | internal/crypto/symmetric.go:137-174 | what parses has a known key and decimal digits in every part, and gives parameters in range, none of them zero |
| `StanzaParams.PaddingIgnored` | internal/crypto/symmetric.go:141 | white space around a part is ignored |
| `StanzaParams.RoundTripIff` | internal/crypto/symmetric.go:66-174 | printed parameters parse back to themselves if and only if none is zero |
| `StanzaParams.Wrap` | internal/crypto/symmetric.go:40-76 | one stanza with salt, parameters, nonce and sealed key, unless the password hash refuses its parameters |
| `StanzaParams.Unwrap` | internal/crypto/symmetric.go:88-135 | the key of the first stanza that opens, or no match when none does |
| `StanzaParams.UnwrapAfterWrap` | internal/crypto/symmetric.go:40-135 | wherever the wrapped stanza stands behind stanzas that do not open, unwrapping returns the wrapped file key |
| `StanzaParams.OpensWrappedIff` | internal/crypto/symmetric.go:40-135 | a wrapped key opens, to itself, if and only if the memory parameter is not zero; with zero memory no passphrase opens it |
| `SkillFile.ExtractBody` | internal/agentskill/manifest.go:112-137 | the body after the closing dashes and any line breaks, or the error |
| `SkillFile.ParseManifest` | internal/agentskill/manifest.go:58-81 | the header, or the error |
| `SkillFile.FindSentinel` | internal/agentskill/manifest.go:102-108 | whether the file is managed |
| `SkillFile.VerifyHash` | internal/agentskill/manifest.go:147-163 | succeeds exactly when the stored hash is that of the body |
| `SkillFile.ReadFramed` | internal/agentskill/skill.go:172-183 | what reading makes of any framed header and body |
| `SkillFile.BodyRoundTripIff` | internal/agentskill/manifest.go:112-137 | the body comes back if and only if it is free of CRLF and does not start with a line break |
| `SkillFile.ReadCrlfFile` | internal/agentskill/manifest.go:58-137 | a file with CRLF around its header reads alike as long as no line of dashes ends in LF alone |
| `SkillFile.LfCloseWins` | internal/agentskill/manifest.go:83-99 | the failing input: a line of dashes ending in LF closes the header though a CRLF line closed it before |
| `SkillFile.ReadBodylessFile` | internal/agentskill/manifest.go:94-137 | dashes that end the file close an empty body |
| `SkillFile.RenderedVerifiesIff` | internal/agentskill/manifest.go:147-163 | a rendered file is managed, and its hash verifies exactly under the same condition |
| `SkillFile.Target.Install` | internal/agentskill/install.go:16-63 | the skill file and its backup afterwards, and the error |
| `SkillFile.Target.BackupFile` | internal/agentskill/install.go:166-174 | the backup is the file |
| `SkillFile.WritesIff` | internal/agentskill/install.go:16-63 | when installing writes, backs up, or fails: exactly |
| `SkillFile.SecondInstallWritesNothing` | internal/agentskill/install.go:41-56 | installing the same body again writes nothing, whatever the header |
| `SkillFile.OldTextKeptIff` | internal/agentskill/install.go:26-62 | the old text stays on disk unless force replaced an unmanaged file by something else |
| `Leases.LeaseManager.CreateLease` | internal/dynamicsecret/lease.go:39-53 | one lease under its id |
| `Leases.LeaseManager.RevokeLease` | internal/dynamicsecret/lease.go:56-66 | the lease is marked, in place |
| `Leases.LeaseManager.IsAlive` | internal/dynamicsecret/lease.go:78-90 | present, not revoked, not past its expiry |
| `Leases.LeaseManager.ListActive` | internal/dynamicsecret/lease.go:93-105 | each active lease exactly once |
| `Leases.LeaseManager.CleanupTick` | internal/dynamicsecret/lease.go:119-127 | exactly the expired and the revoked leases go |
| `Leases.LeaseManager.Generate` | internal/dynamicsecret/manager.go:35-57 | a lease for the secret the engine gave, or the error: cancelled, no engine, or the engine failed |
| `Leases.LeaseManager.RevokeSecret` | internal/dynamicsecret/manager.go:60-76 | the lease is revoked exactly when it is there and its engine revokes |
| `Leases.LeaseManager.Lookup` | internal/dynamicsecret/manager.go:100-109 | the secret of a lease that is there and not revoked |
| `Leases.LeaseManager.Renew` | internal/dynamicsecret/manager.go:79-97 | a secret with the new duration, revoked or not, while the table stays as it is |
| `Leases.FoundIff` | internal/dynamicsecret/lease.go:39-130 | what the table holds after any run, from the run alone |
| `Leases.AliveIff` | internal/dynamicsecret/lease.go:78-90 | over any run a lease is alive exactly from its creation until the earlier of revocation and expiry, cleanup or not |
| `Leases.NeverAliveAgain` | internal/dynamicsecret/lease.go:78-90 | with fresh ids a lease that is over is never alive again |
| `Leases.TicksInvisible` | internal/dynamicsecret/lease.go:108-130 | with and without its cleanup ticks a run has the same active leases, then and later |
| `Leases.LookupNeverRevoked` | internal/dynamicsecret/manager.go:100-109 | a lookup never returns a revoked secret |
| `Leases.LookupOutlivesExpiryIff` | internal/dynamicsecret/manager.go:100-109 | a lookup still returns an expired secret exactly until a cleanup after its expiry |
| `Leases.RenewalsInvisible` | internal/dynamicsecret/manager.go:79-97 | with and without its renewals a run leaves the same table |
| `Leases.RenewalOutlivesLeaseIff` | internal/dynamicsecret/manager.go:79-97 | an unrevoked lease is over at some moment a renewal still promised if and only if the promise reaches past the expiry set at creation and has not run out already |

## Left out

- Failing writes and syncs, partial lines after a crash, and entries that are not valid UTF-8: every write succeeds and JSON is lossless. Whole runs have no failing rotations either.
- AuditLogger.Logger.New: the path checks and creation of the directory, and the loading of the key, are one argument: the key, or none.
- Two loggers on one file, and locking in general: operations happen one after another.
- `GetErrors`, `HealthCheck` and the reading of audit settings from the environment: they add no state.
- 64-bit overflow of durations (`maxAgeDays` times 24 hours, lease and window lengths): times are unbounded integers.
- AuditRetention.AuditDir.EnforceRetention: takes the sorted listing of rotated files as an argument, as `sort.Slice` would give it, and the set of files that cannot be removed.
- ConfigTree.GetAfterSet: asks that the mappings on the path pair keys with values, as parsed YAML always does; appending to a mapping of odd length would misplace the pair.
- ConfigKeys.ListedIffLeaf: asks for unique, nonempty, dot-free keys, without which dotted paths are ambiguous.
- `parseConfigValue` and `Node.Encode`: the encoded value is an argument, absent when encoding fails.
- `sanitizeBytes`, Unicode normalisation and the secret patterns themselves; upper-casing covers the characters that can reach an ASCII letter, and which characters outside ASCII are digits is a parameter.
- Approval: the risk of a tool, path cleaning, and lower-casing with trimming are functions given to the model; the prompt text, the timeout and project detection are not modelled.
- Approval.RecalledIff: is about calls, and for the unsealing tool about paths that are no URI; `UnsealSilentIff` covers the handles.
- Anomaly: descriptions are reduced to the figure they quote; the stale-access setting is not used by any rule.
- Redaction: lists inside an entry are leaves, as in the code, and are kept opaque.
- AgentProfiles: nil and empty lists and maps are not told apart. Profiles are values, as they are passed in the source, although a preset is applied by reference.
- The rest of the configuration (vault, git, MCP, logging sections) and its validation.
- StanzaParams: text is ASCII; a wrong passphrase is covered only where no passphrase can succeed.
- SkillFile: templates, YAML text and directories; `Refresh`, `Uninstall` and the exported archives.
- Leases: the background goroutine is a tick at any time; engines are what they answer.
- Policy engine, token registry, vault storage, git sync, device pairing, HTTP middleware and the command line: the deciding code is elsewhere or is input and output.
