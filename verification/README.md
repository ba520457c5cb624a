# Verified models of the harness core

This project models the parts of the harness repository whose correctness is an
argument rather than a list of branches, and proves what they promise. Each
model has the form of its code: loops that update variables are methods with
invariants, proved against a specification, and the promise is then proved of
that specification for every input or every run.

| files | what they model |
|---|---|
| `checksum.dfy`, `checksum_algebra.dfy`, `checksum_bursts.dfy` | CRC-32: the bit loop, its algebra over GF(2), the table form of section 8 of RFC 1952, burst detection |
| `calendar.dfy`, `expiry.dfy`, `expiry_width.dfy` | the UTC deadline: parser, printer, the two day-count conversions, expiry |
| `text.dfy`, `instruction_region.dfy`, `region_*.dfy` | the marked region of a shared instruction file and every edit made to it |
| `vocabulary.dfy`, `argv_*.dfy`, `argv.dfy` | the command-line contract: flag table, commands, printing |
| `segments.dfy`, `bundle_paths.dfy`, `containment.dfy` | which paths a bundle may name, where they land, who owns them |
| `bundle.dfy`, `bundle_laws.dfy`, `adaptations.dfy`, `bundle_reading.dfy` | the bundle checker |
| `ledger.dfy`, `admission.dfy`, `software.dfy` | software admission with many callers, crashes and outside changes |
| `layout.dfy`, `fragments.dfy`, `surfaces.dfy` | prose wrapping, ordered fragments, declaration checkers |

## How to read the models

- **Texts.** The region and the deadline work on UTF-8 bytes, one per `char`.
  Paths and flags are Unicode texts, and byte lengths are computed where the
  code limits bytes. Lowercasing, hashing, decoding and the test for an absolute
  path are parameters: the theorems hold for any of them.
- **Integers.** The deadline is over unbounded integers with Rust's truncating
  division written out; `expiry_width.dfy` repeats the printer's arithmetic at
  64 bits and shows that no input overflows it. Registers are `bv32`.
- **Admission.** The kernel is an assumption, stated in `ledger.dfy`: each of its
  operations is one durable commit to a record kept per request identifier and
  to one journal, and a check of the prefix that the code makes just before a
  commit is part of it. The code observes the prefix and then commits; nothing is
  claimed of an outside change that falls between the two. `admission.dfy` assumes
  an exclusive writer that a stopped caller lets go of, and lets the prefix and the
  set of requests that may be admitted change between any two steps, even while the
  writer is held. A prefix is a map from paths to what stands there. The paths an effect
  may touch are computed from the request, with the working paths its journal
  records; as in the code, an empty program directory may appear after admission.
  A prefix that is missing is made in a private reservation and moved to its place,
  with the writer let go of and taken again. Commands given directly to the kernel,
  for no request, run whenever no request is active and may leave work behind.
  Outside changes are part of the history, so what the prefix was and which requests
  were open at any past moment can be read from it. A history is justified when
  every event in it was: an admission only in an unbroken hold in which the request
  was found open, on exactly the prefix it names; a start only on the prefix of the
  admission; an effect once, on the request's own paths only, and only in a
  hold in which everything else was found as it was admitted; an answer only with
  the outcome on record. `software.dfy` is the program: `Apply` and `Cancel` with
  everyone else's steps between theirs, in any order, given as a script.

## Where the code and its documentation differ

- **Patching twice.** `patch` is described as idempotent. It is, except for a
  section whose region does not end in a line break, patched over a region that is
  followed by a blank line or another extra line break: the second call writes
  again. `RegionLaws.PatchIdempotentIff` gives the exact condition and
  `RegionLaws.OpenSectionCounterexample` an instance.
- **Attach, then detach.** Frontmatter before a region counts as the attachment's.
  `patch` calls the fence the person's own from then on and `remove_region` is
  described as keeping every other byte, yet frontmatter that a file had before the
  attach goes with the detach (`RegionDetach.FencedFileCounterexample`).
  `RegionDetach.DetachRestoresIff` says exactly which files come back.
- **Withdraw after replace.** A setup written over a file with an attachment
  should not change what a later withdraw keeps. For every setup text the code
  accepts, `RegionDetach.WithdrawIgnoresReplacementIff` says exactly when it does
  not. There are three ways. A text that opens with a fence takes the place of the
  attachment's frontmatter, or is added where there was none: with frontmatter of
  its own, that is kept instead (`RegionDetach.OwnFrontmatterCounterexample`); with
  a fence that it never closes, nothing is kept but the region
  (`RegionDetach.OpenFenceCounterexample`). A text that begins with a line
  break, or is the single character carriage return, adds a blank line to
  frontmatter that ended at its fence (`RegionDetach.BlankLineCounterexample`,
  `RegionDetach.BodyOpensWithBreak`). And a text with a region of its own is
  patched rather than appended to, so its frontmatter counts, and a region
  without a final line break can take one from the text behind it.
- **Detach.** Ambiguous markers are refused before an edit is planned. A detach can make
  them: a region set inside a marker leaves that marker whole and alone
  (`RegionDetach.OrphanCounterexample`), and the file then refuses every edit.
  `RegionDetach.DetachWellFormedIff` says exactly when, and
  `RegionRuns.RunWellFormedIff` that nothing else in any run of accepted edits
  does.
- **A clock before 1970.** `deadline_in` says its epoch deadline counts as
  already past. `has_expired` compares strictly, so a clock that then reads
  exactly second zero still accepts it; `Expiry.DeadlineHoldsUntil` includes
  this case.
- **Owned anywhere.** A path that `owns_anywhere` accepts is meant to be one the
  provider could install at all. A second profile for one scope is looked at
  there and found by no scope. `Containment.AnywhereIsSomewhereIff` gives the
  condition on a declaration table, `Containment.HiddenProfileCounterexample` a
  table that fails it; a table whose scopes are distinct always meets it.

## Model

| member | source | states |
|---|---|---|
| Checksum.ContinueCrc32 | crates/setup-core/src/checksum.rs:27-37 | the masked bit loop computes the register map of its specification, for every seed and buffer |
| Checksum.Crc32 | crates/setup-core/src/checksum.rs:17-19 | a whole buffer is a stream started at zero |
| Checksum.Streams | crates/setup-core/src/checksum.rs:21-37 | hashing a stream piece by piece is hashing the whole |
| ChecksumAlgebra.RunLinear | crates/setup-core/src/checksum.rs:28-36 | xor of seeds and equal-length inputs is xor of registers |
| ChecksumAlgebra.Affine | crates/setup-core/src/checksum.rs:27-37 | the checksum of the xor of three equal-length buffers is the xor of their checksums |
| ChecksumAlgebra.UnrunInverts | crates/setup-core/src/checksum.rs:28-36 | for fixed data the register map is a bijection, with its inverse |
| ChecksumAlgebra.SeedIsDetermined | crates/setup-core/src/checksum.rs:27-37 | a stream's checksum determines the seed |
| ChecksumAlgebra.BitLoopIsTableForm | crates/setup-core/src/checksum.rs:12-37 | the bit loop is the table algorithm of section 8 of RFC 1952, on every buffer |
| ChecksumBursts.WindowIsWord | crates/setup-core/src/checksum.rs:31-34 | up to 32 consecutive bits act on the register as one word |
| ChecksumBursts.DetectsBursts | crates/setup-core/src/checksum.rs:27-37 | two different buffers that differ only within 32 consecutive bits never share a checksum |
| ChecksumBursts.FourBytesReachExactly | crates/setup-core/src/checksum.rs:27-37 | for any seed and target exactly one four-byte input leads there |
| ChecksumBursts.ResidueIffOwnChecksum | crates/setup-core/src/checksum.rs:27-37 | four trailing bytes give the residue 0x2144DF1C if and only if they are the message's own checksum, little-endian |
| ChecksumBursts.PublishedCheckValue | crates/setup-core/src/checksum.rs:44-47 | the published check value |
| Calendar.CivilThenDays | crates/harness-runtime/src/expiry.rs:116-136 | every day count gives a valid date that counts back to it |
| Calendar.DaysThenCivil | crates/harness-runtime/src/expiry.rs:160-168 | every valid date, of any year, is found again from its day count |
| Calendar.NextAddsOne | crates/harness-runtime/src/expiry.rs:145-168 | the day after, by month lengths and leap years alone, counts one more |
| Calendar.CivilIsWalk | crates/harness-runtime/src/expiry.rs:116-136 | the formula is the date reached by stepping one day at a time, both ways from the epoch |
| Calendar.DayCountOrders | crates/harness-runtime/src/expiry.rs:160-168 | day counts order dates as the calendar does |
| Expiry.AcceptsIff | crates/harness-runtime/src/expiry.rs:23-67 | a text denotes an instant exactly when it is seven runs of digits, spelled with their separators, that name a valid date and clock, and the instant is theirs |
| Expiry.FormatThenParse | crates/harness-runtime/src/expiry.rs:93-99 | for every integer, the printed instant parses back exactly within years 0000 to 9999 and is refused outside |
| Expiry.TextOrderIsTimeOrder | crates/harness-runtime/src/expiry.rs:22-67 | without leap seconds, dictionary order of the first nineteen characters is instant order |
| Expiry.LeapSecondIsNextMinute | crates/harness-runtime/src/expiry.rs:58-66 | second 60 denotes the next minute |
| Expiry.DeadlineHoldsUntil | crates/harness-runtime/src/expiry.rs:75-113 | when a deadline made now counts as expired at any later clock, for all clocks and lengths |
| Digits.PadIntReads | crates/harness-runtime/src/expiry.rs:93-99 | a padded number is its sign and digits that read back as it, zeros in front only up to the width |
| ExpiryWidth.FormatUtc64 | crates/harness-runtime/src/expiry.rs:93-99 | printing overflows for no 64-bit input and prints what unbounded arithmetic prints |
| InstructionRegion.OwnedPrefix | crates/harness-runtime/src/instruction_region.rs:154-199 | the skip-by-three scan finds exactly the first later line equal to the fence |
| RegionFrontmatter.FrontmatterIff | crates/harness-runtime/src/instruction_region.rs:150-199 | frontmatter, in lines: a fence that opens the text, lines that are no fence, the next fence, and one blank line; either line ending; nothing without such a block |
| RegionParts.WellFormedIff | crates/harness-runtime/src/instruction_region.rs:18-28 | the marker check accepts exactly texts with no marker, or one begin before one end |
| RegionParts.NoOverlap | crates/harness-runtime/src/instruction_region.rs:11-14 | two markers in a text never overlap |
| RegionParts.Compose | crates/harness-runtime/src/instruction_region.rs:33-48 | unmarked text around a region is well formed and the region is read back, with the one case where it takes a line break more |
| RegionParts.Decompose | crates/harness-runtime/src/instruction_region.rs:33-48 | every well-formed text with a region comes apart around it |
| RegionLaws.UnmarkedIff | crates/harness-runtime/src/instruction_region.rs:18-48 | a well-formed text has a region or no marker at all |
| RegionLaws.PatchAppends | crates/harness-runtime/src/instruction_region.rs:52-98 | the first patch of a nonempty file appends the region on its own line |
| RegionLaws.PatchIsLocal | crates/harness-runtime/src/instruction_region.rs:52-98 | a later patch changes nothing before or after the region |
| RegionLaws.PatchIdempotentIff | crates/harness-runtime/src/instruction_region.rs:75-98 | exactly when a second patch writes nothing |
| RegionLaws.OpenSectionCounterexample | crates/harness-runtime/src/instruction_region.rs:75-98 | a section without its final line break that is written twice |
| RegionDetach.DetachOnce | crates/harness-runtime/src/instruction_region.rs:100-114 | on well-formed text detach stays in bounds, and a second detach finds nothing even if the seam joins marker fragments |
| RegionDetach.DetachWellFormedIff | crates/harness-runtime/src/instruction_region.rs:100-114 | the text a detach leaves has unambiguous markers exactly when no marker's beginning ends the text kept before the region while the rest of it opens the text after |
| RegionDetach.SeamIff | crates/harness-runtime/src/instruction_region.rs:107-113 | a marker lies across the joint of two texts exactly when one is cut by it |
| RegionDetach.OrphanCounterexample | crates/harness-runtime/src/instruction_region.rs:100-114 | a region set inside a marker, whose detach leaves the marker alone |
| RegionDetach.DetachUndoesAttach | crates/harness-runtime/src/instruction_region.rs:87-114 | what detach returns after attach, for every unmarked file, the empty one included |
| RegionDetach.DetachRestoresIff | crates/harness-runtime/src/instruction_region.rs:87-114 | exactly when that is the file with at most one final line break added; an empty file comes back when the section is a frontmatter block or nothing and its region |
| RegionDetach.FencedFileCounterexample | crates/harness-runtime/src/instruction_region.rs:87-114 | a file's own frontmatter, deleted by attach and detach with any section that has a region |
| RegionDetach.OwnedIsFrontmatter | crates/harness-runtime/src/instruction_region.rs:150-199 | the owned prefix is the frontmatter block of the text before the region, whatever surrounds the region |
| RegionDetach.WithdrawIgnoresReplacementIff | crates/harness-runtime/src/instruction_region.rs:116-148 | for every accepted setup text, exactly when it leaves what withdraw keeps unchanged |
| RegionDetach.PlainTextLeaves | crates/harness-runtime/src/instruction_region.rs:118-132 | for a marker-free text that does not open with a fence: unless it adds a blank line behind one |
| RegionDetach.OwnFrontmatterCounterexample | crates/harness-runtime/src/instruction_region.rs:118-132 | a setup's own frontmatter kept in front of a bare region |
| RegionDetach.BlankLineCounterexample | crates/harness-runtime/src/instruction_region.rs:118-132 | a lone carriage return that lengthens the frontmatter kept |
| RegionDetach.OpenFenceCounterexample | crates/harness-runtime/src/instruction_region.rs:118-148 | a setup's fence that is never closed: over any file with frontmatter, withdraw keeps the region alone |
| RegionDetach.BodyOpensWithBreak | crates/harness-runtime/src/instruction_region.rs:118-132 | the texts that add such a blank line |
| RegionRuns.RunStaysTidy | crates/harness-runtime/src/instruction_region.rs:75-148 | where every region fills whole lines, in the file, the sections and the setup texts, every run keeps the markers well formed and carries exactly the tracked region, with no line break more; the general case is RunWellFormedIff |
| RegionRuns.RunWellFormedIff | crates/harness-runtime/src/wire.rs:911-926 | for every run of accepted edits: the markers stay well formed exactly when no detach met a region set inside a marker, and then the file carries the tracked region |
| RegionRuns.LastTouchDecides | crates/harness-runtime/src/instruction_region.rs:87-148 | the last patch or detach of a run of accepted edits decides the region, up to a line break it met |
| RegionTexts.ReplacementKeepsText | crates/harness-runtime/src/instruction_region.rs:116-132 | a setup's text arrives whole: as the new file, or with its last line ended in front of the region and nothing behind it, or, with a region of its own, around the attachment's |
| RegionTexts.TextStays | crates/harness-runtime/src/instruction_region.rs:75-114 | a text in the file stays whole through any run of attaches, and of detaches too if frontmatter cannot be mistaken for it |
| RegionTexts.LastSetupStays | crates/harness-runtime/src/wire.rs:3482-3491 | after any run, the text outside the attachment is the last setup's, whatever came before |
| RegionTexts.LastMarkedSetupStays | crates/harness-runtime/src/wire.rs:3482-3491 | the same of a setup with a region of its own: the text before and after it stays, but for line breaks the region met |
| ArgvFlags.GroupsAreTokens | crates/provider-v3/src/argv.rs:644-677 | the groups a token list is read as spell that list again |
| ArgvFlags.FlattenReads | crates/provider-v3/src/argv.rs:644-677 | spelled groups are read back |
| ArgvFlags.LooksLikeFlagIff | crates/provider-v3/src/argv.rs:594-603 | a token is refused as a value exactly when it is two dashes, an ASCII letter and anything |
| ArgvFlags.ParseFlags | crates/provider-v3/src/argv.rs:644-677 | the index loop accepts exactly readable tokens without repeats, and its table holds what they say |
| ArgvFlags.Flags.TakeOptional | crates/provider-v3/src/argv.rs:696-698 | the first value of a flag, which leaves the table |
| ArgvFlags.Flags.TakeRepeated | crates/provider-v3/src/argv.rs:704-706 | all values of a flag, in order |
| ArgvFlags.Flags.TakeSwitch | crates/provider-v3/src/argv.rs:708-714 | whether a switch was given, removing only it |
| ArgvFlags.Flags.RequireExhausted | crates/provider-v3/src/argv.rs:773-785 | accepts exactly when every flag given was taken |
| Argv.TakeBundle | crates/provider-v3/src/argv.rs:721-755 | all five bundle flags or none |
| Argv.TakePlan | crates/provider-v3/src/argv.rs:606-630 | the plan request, in the order flags are claimed |
| Argv.Parse | crates/provider-v3/src/argv.rs:463-572 | emptying the table command by command gives what the groups alone determine, refusals included |
| ArgvLaws.ReadCallIff | crates/provider-v3/src/argv.rs:516-555 | a call is read as an invocation exactly when every claimed flag says what the invocation says |
| ArgvExact.ReadCommandIff | crates/provider-v3/src/argv.rs:500-572 | with required flags and left-over flags: every flag and value, and nothing else |
| ArgvExact.AcceptsIff | crates/provider-v3/src/argv.rs:463-572 | a token list parses as an invocation if and only if it spells it |
| ArgvPrinting.ParseU64Iff | crates/provider-v3/src/argv.rs:740-744 | a byte count is read from a text exactly when that is perhaps a plus, perhaps zeros, and its decimal digits, within 64 bits |
| ArgvPrinting.ValueReadsIff | crates/provider-v3/src/argv.rs:594-603 | a value given to a flag is read back exactly when it is not the separator and not two dashes with an ASCII letter |
| ArgvPrinting.FencedSectionParses | crates/provider-v3/src/argv.rs:594-603 | a plan whose instruction section opens with `---` is read back, whatever follows |
| ArgvPrinting.OrderIndependent | crates/provider-v3/src/argv.rs:28-34 | rearranged flags, artifact values kept in order, give the same invocation or the same refusal |
| ArgvPrinting.PrintParses | crates/provider-v3/src/argv.rs:463-572 | every printable invocation is read back from its printout |
| ArgvPrinting.SpeakableIff | crates/provider-v3/src/argv.rs:463-604 | an invocation can be asked for at all exactly when it obeys the rules and no value of it is the separator or two dashes with a letter |
| ArgvPrinting.NothingIgnored | crates/provider-v3/src/argv.rs:463-572 | an accepted token list is a rearrangement of its invocation's printout, up to the spelling of the byte count and an empty separator |
| Segments.PiecesBeginIff | crates/harness-runtime/src/facts.rs:444-451 | a string prefix ending at a separator is a prefix in whole segments |
| BundlePaths.CheckPathIff | crates/provider-v3/src/bundle.rs:950-1006 | exactly which paths are accepted, as one statement on characters and names, and which are refused for their name alone |
| BundlePaths.SegmentIff | crates/provider-v3/src/bundle.rs:883-948 | exactly which segments are accepted |
| BundlePaths.DeviceIff | crates/provider-v3/src/bundle.rs:865-877 | a segment names a device exactly when it is a reserved stem, alone or with a dot and anything behind it |
| BundlePaths.DeviceWithTail | crates/provider-v3/src/bundle.rs:865-877 | no extension makes such a segment, or a path that holds it, acceptable |
| BundlePaths.BytesGrow | crates/provider-v3/src/bundle.rs:883-1006 | the byte length is one for each character and one more from each of the three codes at which UTF-8 grows |
| BundlePaths.ReasonIff | crates/provider-v3/src/bundle.rs:950-1006 | the reason of a refusal, whatever the order of the checks: too long, climbing first, a secret's name, or not relative |
| Containment.Contained | crates/provider-v3/src/bundle.rs:950-1006 | an accepted path lands at its own segments strictly beneath any root and never leaves it on the way |
| Containment.LandsApart | crates/provider-v3/src/bundle.rs:950-1006 | accepted paths land in one place only if they are equal |
| Containment.WithinIff | crates/harness-runtime/src/facts.rs:444-451 | ownership compares whole segments |
| Containment.OwnedLandsBeneath | crates/harness-runtime/src/facts.rs:364-451 | a path is owned exactly when it lands at or beneath a namespace |
| Containment.OwnsAtIs | crates/harness-runtime/src/facts.rs:511-516 | a scope no profile names owns what the harness owns; a named one, what its first profile does |
| Containment.AnywhereIsSomewhereIff | crates/harness-runtime/src/facts.rs:429-516 | a table owns the same paths anywhere as at some scope exactly when its hidden profiles add no namespace |
| Containment.DistinctScopesAgree | crates/harness-runtime/src/facts.rs:436-516 | always so when no two profiles share a scope |
| Containment.HiddenProfileCounterexample | crates/harness-runtime/src/facts.rs:436-516 | a table on which they differ |
| Bundles.Effective | crates/provider-v3/src/bundle.rs:301-323 | a reported limit may lower the contract's and never raises it |
| Bundles.RequireMembers | crates/provider-v3/src/bundle.rs:624-655 | accepts exactly archives that begin with the four documents and repeat no name, with the reason otherwise |
| Bundles.CollectPresent | crates/provider-v3/src/bundle.rs:713-725 | the carried files by path |
| Bundles.CheckRecord | crates/provider-v3/src/bundle.rs:782-833 | a record's own claims against the spellings seen before it |
| Bundles.CheckFiles | crates/provider-v3/src/bundle.rs:692-780 | accepts exactly when all checks pass, returns the declared bytes and modes, and refuses for the first check that fails |
| BundleLaws.PresentIff | crates/provider-v3/src/bundle.rs:713-725 | with unique names, a path is carried exactly when a member is named `files/` and it, it is not empty and ends in no separator |
| BundleLaws.StructureIff | crates/provider-v3/src/bundle.rs:719-725 | `files/`, every directory beneath it and every other member carry no path; all the rest carry one |
| BundleLaws.StructureIgnored | crates/provider-v3/src/bundle.rs:719-725 | adding or dropping structure changes neither acceptance, nor the files returned, nor the reasons |
| BundleLaws.AcceptedIff | crates/provider-v3/src/bundle.rs:692-833 | acceptance is one statement: manifest and archive declare each other, folds are distinct, limits and record rules hold |
| BundleLaws.InstallsExactly | crates/provider-v3/src/bundle.rs:727-780 | the result has one entry for each record and each file member, with their bytes and modes |
| Adaptations.CheckAdaptationBindings | crates/provider-v3/src/bundle.rs:531-621 | the loops refuse for the first rule that fails and accept otherwise |
| Adaptations.SortedNeverRepeats | crates/provider-v3/src/bundle.rs:561-587 | strict sorting makes the owner-repeat test unreachable |
| Adaptations.CanonicalIff | crates/provider-v3/src/bundle.rs:514-528 | a digest or identifier is canonical exactly when it is its tag and 64 lower-case hexadecimal digits |
| Digits.LexLessIff | crates/provider-v3/src/bundle.rs:563-587 | the order that sorting is checked by: the first place where two texts part decides |
| Adaptations.BoundIff | crates/provider-v3/src/bundle.rs:531-621 | acceptance as one statement about bindings and files, the profile for the manifest's scope, or `global` when it names none |
| Adaptations.OwnershipIsTotal | crates/provider-v3/src/bundle.rs:604-621 | every file has exactly one owner, which lists it, and every component owns a file |
| BundleReading.ReadBundle | crates/provider-v3/src/bundle.rs:382-467 | accepts exactly genuine bundles, and refuses with the reason of the first check, in the fixed order, that fails |
| BundleReading.InstallsSafely | crates/provider-v3/src/bundle.rs:437-438 | under any root each file lands apart beneath it, with a distinct fold and one owner |
| Ledgers.EffectsAreVetted | crates/harness-runtime/src/software.rs:381-491 | every effect is the writer's, in a prefix at its place, touches only its request's own and recorded working paths, and started on the prefix, an empty program directory apart, of an admission made while the request was open, in one unbroken hold |
| Ledgers.EffectsLeaveTheRest | crates/setup-core/src/software/operation.rs:393-446 | whoever makes or reports an effect had found, in the same hold, everything outside its paths as admitted |
| Ledgers.AdmitKeeps | crates/setup-core/src/software/operation.rs:342-384 | admission keeps the record in agreement with the history |
| Ledgers.SettleKeeps | crates/setup-core/src/software/operation.rs:452-507 | an outcome keeps the record in agreement with the history |
| Ledgers.BuryKeeps | crates/setup-core/src/software/operation.rs:328-332 | so does cancelling a request never admitted, beside another's pending work |
| Ledgers.MeddleKeeps | crates/setup-core/src/software/store.rs:341-351 | so does a command given directly to the kernel, which runs only while no request is active |
| Ledgers.AsBeforeIff | crates/setup-core/src/software_prefix.rs:474-500 | a prefix counts as untouched exactly when every path is as it was, but for a program directory that appeared |
| Ledgers.SameRestIff | crates/setup-core/src/software/operation.rs:181-191 | the rest is as it was exactly when every path is, but for the version, the three launch entries, the working paths and such a directory |
| Admission.StepKeeps | crates/harness-runtime/src/software.rs:381-528 | every step of every caller, and every outside change, keeps the invariant and takes nothing back |
| Admission.RunKeeps | crates/harness-runtime/src/software.rs:381-528 | so does every run |
| Admission.EveryRunIsJustified | crates/harness-runtime/src/software.rs:381-528 | over every interleaving with crashes and outside changes anywhere, every event was justified when it happened, and the state is what the history says |
| Admission.EffectsOfARun | crates/harness-runtime/src/software.rs:381-528 | in every run from a fresh prefix, each effect is vetted, changes no path but its request's own and recorded ones, leaves an installed program's paths filled and a removed version gone, is its request's only one, and its request is never settled without it |
| Admission.SettlementsOfARun | crates/setup-core/src/software/operation.rs:288-507 | in every run a request is settled once, with an outcome its kind can have, an admitted one without an effect only on the prefix of its admission (cancelled on exactly that), and by applying only in a hold that found the rest as admitted |
| Admission.AnswersOfARun | crates/harness-runtime/src/software.rs:320-350 | in every run each answer is the recorded outcome, so all answers to a request are the same |
| Admission.ForeignNeverMeets | crates/setup-core/src/software/store.rs:341-368 | in every reachable state a pending request has no foreign work beside it |
| Admission.FirstOutcomeStands | crates/harness-runtime/src/software.rs:381-491 | once settled, every later answer is that outcome and no effect follows |
| Admission.LeaveKeeps | crates/setup-core/src/software/writer.rs:31-63 | a caller that stops anywhere lets go of the writer and leaves the invariant |
| SoftwareCalls.WriterExcludes | crates/setup-core/src/software/writer.rs:31-63 | while one caller holds the writer nobody else changes the record or the journal |
| SoftwareCalls.LeafIff | crates/setup-core/src/software/records.rs:50-56 | a command or version is a name that lands directly beneath any directory, and the same name on every system |
| SoftwareCalls.WithProgramPuts | crates/setup-core/src/software/staging.rs:341-389 | an installed program stands at its version and its three launch entries, the directory of commands is there, and every other path is as before |
| SoftwareCalls.WithoutProgramTakes | crates/setup-core/src/software/removal.rs:174-242 | a removal leaves no version, no working path, and no launch entry unless they are another version's; every other path is as before |
| SoftwareCalls.AdmitUnderWriter | crates/harness-runtime/src/software.rs:440-471 | a record only by an admission vetted in this hold, marked when made in a reservation; alone, made exactly when the request is admissible, in a reservation only as its first |
| SoftwareCalls.Publish | crates/setup-core/src/software/allocation.rs:228-262 | only the untouched reservation of its own admitted request is moved to its place, never onto one; alone, exactly then, and nothing of record, journal or content changes |
| SoftwareCalls.Pursue | crates/harness-runtime/src/software.rs:472-489 | a pending request is published first if it lives in a reservation, then resumed; alone, with exactly the determined outcome |
| SoftwareCalls.Resume | crates/setup-core/src/software/operation.rs:393-446 | refuses foreign work and a prefix that drifted outside the request's own and recorded paths, changing nothing; an effect in place is reported and a begun removal finished whatever others do; alone, a stage is thrown away and an untouched request started, with exactly the determined outcome and prefix |
| SoftwareCalls.Apply | crates/harness-runtime/src/software.rs:381-491 | each call is a run of the step system, on a prefix that is there or missing; its answer is the record's; alone, its answer or refusal is exactly determined in every state, crash states included, and so is every path of the prefix it leaves: the program at its paths, the version gone, or all as before |
| SoftwareCalls.LoneLeaves | crates/harness-runtime/src/software.rs:381-491 | what a lone call comes to, read path by path |
| SoftwareCalls.Cancel | crates/harness-runtime/src/software.rs:493-528 | its success is the record's, for its own control directory; alone it succeeds exactly for an update or removal never recorded, or recorded there for the same control directory, not through a reservation, and cancelled already or not started on exactly the prefix of its admission, no program directory made since; it changes no path |
| Layout.Wrapped | crates/harness-runtime/src/human.rs:679-697 | the loop gives the greedy lines |
| Layout.WordsIff | crates/harness-runtime/src/human.rs:679-681 | the words of a text are the only way to see it as words with white space between and around them |
| Layout.WrappedIsRight | crates/harness-runtime/src/human.rs:668-697 | the words in order, each line acceptable, and no acceptable lines holding those words are fewer |
| Fragments.Says | scripts/evidence.py:551-559 | holds exactly when the fragments occur in order without overlap |
| Fragments.SplitRejoins | scripts/evidence.py:554 | the fragments are the marker's pieces and none holds the separator |
| Surfaces.OwnedPathsFoldTogether | crates/harness-runtime/src/surfaces.rs:355-373 | reports exactly when two different names fold alike, and only such pairs |
| Surfaces.AgainstDeclaration | crates/harness-runtime/src/surfaces.rs:718-773 | exactly which findings are reported, and silent exactly when namespaces and rows agree and each declared kind, and nothing else, is routed once |
| Surfaces.LongestOwner | crates/harness-runtime/src/surfaces.rs:1042-1054 | the deepest covering row, or none exactly when no row covers the file |

## Left out

- Files, processes, environment, network and the wire envelope around these functions: input and output only.
- SHA-256, canonical JSON, JSON decoding, ZIP reading, Unicode lowercasing and absolute-path tests: parameters of the models.
- Error wording: refusals carry their reason, never their message.
- `bundle.rs` setup passport and `require_projection_profile`: one lenient read and one flat comparison.
- `surfaces.rs` row decoding (`owned_surfaces`) and the prose heuristics: no statement beyond their branches. Row paths are compared by characters rather than bytes in `Surfaces.LongestOwner`; covering paths are prefixes of one text, so the order is the same.
- Ledgers.AdmitKeeps: that one kernel call, with the checks it makes, is one durable commit, and that the writer is exclusive and released when its holder stops, are assumptions, not results.
- SoftwareCalls.Apply: extraction and promotion are one private stage and one step into place; intermediate renames, which the kernel rolls back or forward by identity, and the exposure of the launch entry belong to that step.
- SoftwareCalls.Apply: whether a command is offered through a `.cmd` script is part of the intent; deciding that from the program's file name and the platform is not part of this model, nor are the checks on a request's identifier and digest.
- SoftwareCalls.Apply: what a removal verifies of receipts and launch entries is given to the call (`owned`, `launches`), and what recovery verifies of bytes it promoted itself is not modelled.
- SoftwareCalls.Publish: a missing prefix comes to its place only through a reservation; one that somebody else creates meanwhile, which the code refuses, and the identities of directories are not modelled.
- SoftwareCalls.Resume: the two digests the kernel keeps, of the whole prefix and of what lies outside a request's paths, are one map compared whole or outside those paths, without device and inode numbers.
- Runs of `apply` that stop half way are runs of `Admission`, where any caller may leave at any step; the methods of `SoftwareCalls` run to their end.
