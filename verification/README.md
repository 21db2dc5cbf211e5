# AstraNull: verified models of its hard parts

This project models the parts of AstraNull that are hard to get right by reading, and proves what they promise.
Everything is Dafny; `dafny verify dfyconfig.toml` checks the whole project.

- **Backup retention** (`Filesystem`, `IdentityRecord`, `RetentionProtocol`, `RetentionTrace`, `RetentionLaws`,
  `RetentionStages`, `RetentionCrash`, `RetentionSpec`, `RetentionSurvival`, `RetentionWorld`, `RetentionHelper`). The helper that prunes database backups is a
  class whose methods make one system call after another. Before every call, not only at the checkpoints, other processes
  may turn the disk into any other disk, any call may fail, and any checkpoint may be refused. Every call is recorded in a
  trace, and every method keeps the trace lawful, on every error path, and keeps to a protocol that says of every
  checkpoint and every change which looks, with which answers, must come right before it. From that follow the safety
  results that hold under arbitrary interference. When nobody else touches the disk, the state after every single step, also of a run that
  a failing call or a refused checkpoint stops halfway, is so many records done plus at most one record at one of a few
  listed stages; for published pairs all of these are crash safe, but for one window named below, and a successful run
  ends on the disk that a plain specification names.
  A directory keeps every view of its entries since it was last synced: the last is what processes see, the first is
  what the last `fsync` promised, and a crash brings each directory back as any one of its views, independently of the
  others.
- **Page enumeration** (`PageFetch`, `PageEnumerator`). One fetch with retries, back-off and a deadline; and the worker
  pool that reads all pages, for every order in which pages complete.
- **Portal cache** (`PortalCache`, `PortalRuns`, `PortalCalls`, `PortalHistories`). Calls that wait twice and then merge
  their results into a shared cache, in every interleaving.
- **Discovery stream** (`EventStream`). Splitting events out of text that arrives in arbitrary chunks, after sections 9.2.5
  and 9.2.6 of the WHATWG HTML Living Standard.
- **Custody text** (`CustodyJson`, `CustodyText`, `CustodyReader`). The canonical JSON text that digests are taken of, and
  a reader for it.
- **Domains and findings** (`DomainForest`, `PostureRollup`, `DomainPosture`, `FindingRules`, `ReportDiff`). The forest of
  declared hosts, the roll-up along it, findings grouped by rule, and the difference of two reports.

`Outcomes`, `Text` and `Sorting` hold what several of these share. `Sorting` is the stable sort that the languages of the
original promise; `localeCompare` and other comparisons that are not modelled are arbitrary total preorders.

Six statements one might expect turn out false; the code is modelled as it is, and the condition is proved:

- A crash can lose the name of a file that is being pruned (`RetentionSurvival.TransitIsLost`): between its rename and the
  next sync of the quarantine the root may come back without it and the quarantine too. That is the only window and the
  file that just moved the only one concerned (`RetentionSurvival.MidwaySurvives`, `RetentionSurvival.TransitWindow`); it
  has all its bytes then (`RetentionSurvival.TransitKeepsBytes`), and the synced views alone always name it
  (`RetentionCrash.StageIsCrashSafe`).
- Rolled-up totals need not equal the input totals: a row whose domain is not listed is lost
  (`PostureRollup.MissingDomainLoses`), and rows under an id that two top-level rows share are counted twice
  (`PostureRollup.SharedIdDoubles`). They are equal if and only if what is lost equals what is repeated
  (`PostureRollup.OpenFindingsAreConserved`, `PostureRollup.HostCountsAreConserved`), and nothing is lost or repeated
  if and only if every row has its domain listed exactly once (`PostureRollup.LandsInOneDomain`); along the forest of all
  targets, with one row each, that is always so (`DomainPosture.ForestConserves`).
- A call to the portal cache can leave a gated dataset marked as loaded and empty although the cached feature flags enable
  it, in a run that begins with an empty cache (`PortalHistories.StaleFlagsHideADataset`). It does if and only if the call
  read no flags of its own with success, those it found disable the dataset, and those cached when it commits enable it
  (`PortalCalls.HiddenMeansStaleFlags`).
- A call that succeeds in everything does not leave every dataset it asked for marked as loaded
  (`PortalHistories.FreshFlagsUnmark`, again in a run that begins with an empty cache); `PortalCalls.RequestedIsLoaded`
  says exactly which one it does not.
- Following parents of declared hosts can run into a cycle (`DomainForest.SharedIdsCanCycle`); every cycle passes through
  an id that stands for two targets (`DomainForest.PathDoesNotReturn`), so there is none when an id stands for one target
  (`DomainForest.FollowEndsAtRoot`). Following runs into one if and only if it starts in a set of ids that all have a
  parent in the set (`DomainForest.ReturnsMeansTrapped`).
- Canonical text does not tell a number that is not finite from null (`CustodyText.NotANumberReadsAsNull`);
  `CustodyText.CanonicalTextDecides` says for all values what it does tell apart.

## Model

| member | source | states |
|---|---|---|
| `IdentityRecord.ParseIsExact` | scripts/postgres-retention-helper.py:67-105 | A line parses to a record if and only if the record is one a line can carry and the line is that record printed with tabs and canonical decimals: field count, name shape, calendar check, signs, leading zeros and link counts included |
| `IdentityRecord.ParseIsInjective` | scripts/postgres-retention-helper.py:88-105 | Two accepted lines that give the same record are the same line |
| `IdentityRecord.PrintParses` | scripts/postgres-retention-helper.py:88-105 | Printing and parsing again gives back every record a line can carry |
| `IdentityRecord.IntegerSpelling` | scripts/postgres-retention-helper.py:37-41 | An integer field has exactly one spelling: no plus sign, no leading zero, a minus sign only in a signed field and never before zero |
| `IdentityRecord.NamesAreStamps` | scripts/postgres-retention-helper.py:37-80 | A name is accepted if and only if it is `postgres-YYYY-MM-DDTHH-MM-SS-mmmZ-` with padded fields of a moment of the calendar, twelve lower-case hexadecimal digits and `.dump.enc` |
| `IdentityRecord.CalendarIsGregorian` | scripts/postgres-retention-helper.py:67-70 | The days of the months are 30 and 31 in turn but for February and from July to August, and those of a year are 365 and the leap day that the count of years divisible by 4, not by 100, but by 400 gives it |
| `IdentityRecord.RangeMeans` | scripts/postgres-retention-helper.py:95-101 | Of the nine fields only the two times may be negative |
| `IdentityRecord.NamesDoNotClash` | scripts/postgres-retention-helper.py:37-41 | The artifact name of one record is never the manifest name of another |
| `Filesystem.CallsAreGentle` | scripts/postgres-retention-helper.py:169-197 | No successful call of the helper removes or overwrites a name, drops an inode or changes bytes, except a truncation of the one inode it is given |
| `RetentionTrace.TruncatesOnlyRecordedInodes` | scripts/postgres-retention-helper.py:336-363 | In every lawful trace, under any interference, a truncated inode is one of the two named by device and inode number in the record under way. Both of them, not only the one truncated, were read by handle with their full identity before their capture, and between the checkpoint before that record's pair barrier and the one that declares it passed they were read again, by handle and then under their captured names in one directory, with their captured identities; no other barrier was declared since. So leaving `ctime_ns` out of the comparison admits no other file, and neither half is reclaimed before the barrier has passed for both |
| `RetentionTrace.MovesOnlyVerifiedNames` | scripts/postgres-retention-helper.py:274-282 | In every lawful trace, under any interference, the helper moves only the two files of listed records, to `manifest` or `artifact`, and only immediately after a handle and then the path showed the recorded identity: between that look and the move it does nothing but announce the capture |
| `RetentionLaws.SpotIsRemembered` | scripts/postgres-retention-helper.py:228-231 | Whatever other processes do, what the protocol goes by is what the trace shows: the last checkpoint, and after it, in order and with nothing of the helper between, the calls since |
| `RetentionLaws.CapturesAreSecured` | scripts/postgres-retention-helper.py:463-504 | Under any interference, between the move of either file and the first sync, or any other change after it, the helper reported the capture and then, with nothing else between, made thirteen looks: the captured name opened the inode with the recorded identity but for `ctime_ns`, the name and the source handle showed the same identity and the old name was gone; then the held root and its path agreed and were private, the held quarantine and its name in the root agreed and were private, and the held inode, a newly opened handle and the captured name had the captured identity |
| `RetentionLaws.PreflightVerifiesAll` | scripts/postgres-retention-helper.py:561-568 | Under any interference, the preflight is reported complete only after every listed record was opened, both files of the recorded identity by handle, passed its own checkpoint, and was then, with nothing else between, found with the recorded identity, both files by handle and then both by path |
| `RetentionLaws.QuarantinesFollowVerification` | scripts/postgres-retention-helper.py:569-577 | Under any interference, a quarantine is made only for a listed record that was verified once more in the same way, and since then the helper only announced the deletion |
| `RetentionLaws.BarriersAreWhole` | scripts/postgres-retention-helper.py:336-363 | Under any interference, the barrier of a pair is reported passed only after the root and the quarantine were found live and private and then both held inodes and both captured names with identities that are the recorded ones but for `ctime_ns`, all after the checkpoint before it |
| `RetentionLaws.TombstonesAreSeen` | scripts/postgres-retention-helper.py:366-392 | Under any interference, the tombstones are synced only after the directories were found live, both held inodes of the record twice with one identity and empty, and both captured names with the same |
| `RetentionLaws.CheckpointsAreScripted` | scripts/postgres-retention-helper.py:423-577 | Under any interference, the checkpoints of a run come in one order: one for each record, the end of the preflight, and then for one record after the other the thirty of one record, from its verification to its durable tombstones |
| `RetentionLaws.FinishedRunsAreWhole` | scripts/postgres-retention-helper.py:547-586 | A run that has finished has passed all of these, thirty for each record |
| `RetentionTrace.BytesChangeOnlyPastTheBarrier` | scripts/postgres-retention-helper.py:438-540 | A step of the helper that changes an inode's bytes is a truncation that comes after the barrier checkpoint of a record naming that inode |
| `RetentionTrace.NoStepUnlinks` | scripts/postgres-retention-helper.py:438-545 | No step of the helper takes a name away except by moving it to a free name, and every inode linked before a step is linked after it, whatever other processes do around it |
| `RetentionTrace.UndisturbedRunUnlinksNothing` | scripts/postgres-retention-helper.py:547-586 | Over a whole run that nobody disturbs, every inode that starts with a name ends with one |
| `RetentionCrash.StageIsCrashSafe` | scripts/postgres-retention-helper.py:448-540 | In every stage in which bytes go only after both names have durably left the root, no view of the root that a crash may show lists a manifest without its artifact or a name with changed bytes behind it, the synced views name both inodes of every pair, and there are no more quarantines than allowed |
| `RetentionCrash.MoveIsOrderly` | scripts/postgres-retention-helper.py:452-504 | The capture of either file, and the two syncs after it, lead only through the listed stages: the quarantine is synced before the root, and the bytes are kept |
| `RetentionCrash.ReclaimIsOrderly` | scripts/postgres-retention-helper.py:522-540 | So do the two truncations and the syncs after them, once both files are out and both directories are synced |
| `RetentionCrash.OrderlyIsCareful` | scripts/postgres-retention-helper.py:448-540 | In each of the listed stages bytes go only after both names have durably left the root, and both inodes of the pair have a synced name |
| `RetentionSpec.PrunedStep` | scripts/postgres-retention-helper.py:423-545 | Pruning one more pair takes the plain specification of k pairs to that of k + 1: exactly its names leave the root, its inodes are emptied in a quarantine of their own, all else is as before |
| `RetentionSpec.PrunedIsCrashSafe` | scripts/postgres-retention-helper.py:547-586 | Between two records a crash is safe |
| `RetentionSpec.QuarantineCount` | scripts/postgres-retention-helper.py:395-404 | After k records there are exactly k more quarantines than at the start, so a run that passes the budget check never passes 4096 |
| `RetentionSurvival.MidwayIsCrashSafe` | scripts/postgres-retention-helper.py:423-545 | With so many records done and the next one at any of its stages, a crash is safe if the pairs were published |
| `RetentionSurvival.MidwayWithinBudget` | scripts/postgres-retention-helper.py:395-420 | Wherever a prune is, published pairs or not, there are at most 4096 quarantines |
| `RetentionSurvival.MidwayKeepsTheRest` | scripts/postgres-retention-helper.py:423-545 | Wherever a prune stops, every name but those of the pairs done or under way is still in the root, the inodes of those pairs are the same files, kept or emptied, and every other inode and directory but the root is as it was |
| `RetentionSurvival.MidwaySurvives` | scripts/postgres-retention-helper.py:448-504 | If every view of the root at the start lists both halves of each pair, then at every stage a half has a name after every crash, whichever view each directory comes back as, if and only if it is not in transit, that is, held by a quarantine that was not synced since |
| `RetentionSurvival.TransitIsLost` | scripts/postgres-retention-helper.py:274-296 | While it is in transit there is a crash after which neither the root nor any quarantine names it |
| `RetentionSurvival.TransitWindow` | scripts/postgres-retention-helper.py:274-504 | A capture puts exactly the captured file in transit, and the sync of the quarantine that follows takes it out again |
| `RetentionSurvival.OneInTransit` | scripts/postgres-retention-helper.py:452-504 | At most one file is in transit at any stage |
| `RetentionSurvival.TransitKeepsBytes` | scripts/postgres-retention-helper.py:274-504 | A file in transit has the bytes it had when its record was begun |
| `RetentionHelper.Helper.VerifyPair` | scripts/postgres-retention-helper.py:234-257 | Changes nothing, whatever the environment does; with nobody else on the disk a success means, and without faults it follows if, both files are regular, singly linked, of the recorded identity by handle and by path, and the manifest size is in bounds; under any interference a success means that both files were opened and read, then came the checkpoint, and then four more looks found both of the recorded identity, by handle and then by path |
| `RetentionHelper.Helper.Capture` | scripts/postgres-retention-helper.py:260-301 | Success means the moved inode was read with its recorded identity before the move and with the same fields but `ctime_ns` after it; with nobody else on the disk the only change is one no-replace rename, also when it fails, and without faults it succeeds on a file that is as recorded |
| `RetentionHelper.Helper.ConfirmCapture` | scripts/postgres-retention-helper.py:283-296 | Changes nothing, whatever the environment does; on success what the new name opened is the inode the source handle holds, with its captured identity; without faults or others it succeeds if that is so and the name is gone from the root |
| `RetentionHelper.Helper.AssertSingleCapture` | scripts/postgres-retention-helper.py:304-333 | Changes nothing, whatever the environment does; with nobody else on the disk a success means, and without faults it follows if, the directories are live and private and the captured name is the held inode with its captured identity; under any interference a success means eight looks that showed this |
| `RetentionHelper.Helper.AssertPairCaptured` | scripts/postgres-retention-helper.py:336-363 | Changes nothing, whatever the environment does; success means both held inodes were read again, by handle and then under their captured names, with their captured identities; with nobody else on the disk it means, and without faults it follows if, both are so in live private directories |
| `RetentionHelper.Helper.PassBarrier` | scripts/postgres-retention-helper.py:506-520 | Changes nothing, whatever the environment does and also when it is refused; success clears the pair for truncation, which records that both halves were read again inside this barrier, and with nobody else on the disk it means, and without faults it follows if, the pair is captured as recorded. Under any interference it is declared passed only after its eight looks |
| `RetentionHelper.Helper.AssertPairTombstones` | scripts/postgres-retention-helper.py:366-392 | Changes nothing, whatever the environment does; with nobody else on the disk a success means, and without faults it follows if, both held inodes are zero-byte files under their captured names in live private directories; under any interference a success means ten looks that showed this |
| `RetentionHelper.Helper.Reclaim` | scripts/postgres-retention-helper.py:522-527 | May be called only on an inode of a cleared pair of a listed record; with nobody else on the disk the only change is that inode emptied, also when it fails, and without faults it succeeds |
| `RetentionHelper.Helper.ValidateBudget` | scripts/postgres-retention-helper.py:395-404 | Changes nothing, whatever the environment does; with nobody else on the disk a success means, and without faults it follows if, the quarantines there and those requested fit the limit and each one there is a private directory |
| `RetentionHelper.Helper.CreateQuarantine` | scripts/postgres-retention-helper.py:406-420 | With nobody else on the disk, a success is one new private directory under a quarantine name on the root's device; a failure leaves the disk as it was or with that directory made and not yet private; without faults it fails only after sixteen taken names and changes nothing |
| `RetentionHelper.Helper.CaptureDurably` | scripts/postgres-retention-helper.py:452-504 | With nobody else on the disk, every state on the way, also of a failing one, is a stage of the record; on success one file of the pair has gone durably from the root to the quarantine; without faults it succeeds; under any interference it makes its syncs only after the capture is confirmed and the barrier after it has passed |
| `RetentionHelper.Helper.PruneRecord` | scripts/postgres-retention-helper.py:423-545 | With nobody else on the disk, every state on the way, also when a call fails or a checkpoint is refused, is a stage of the record, and a success completes it; without faults it fails only without a quarantine name and then changes nothing; under any interference a success has passed every checkpoint of the record, each with the looks before it |
| `RetentionHelper.Helper.PruneAll` | scripts/postgres-retention-helper.py:569-577 | With nobody else on the disk, every state is so many records done and the next one at one of its stages, and a success means that all are done; without faults it stops only between two records and without a quarantine name |
| `RetentionHelper.Helper.Prune` | scripts/postgres-retention-helper.py:547-586 | Whatever the environment does, the trace is lawful and keeps the protocol, a success has finished every record, a malformed, oversized, duplicated or relative request changes nothing, and the helper changes nothing before the preflight is complete and acknowledged, so a run that fails in it leaves only looks. With nobody else on the disk, a request that does not fit it fails and leaves it untouched; otherwise the disk after every step and at the end, for whatever reason the run stops, is so many records done and the next one at one of its stages, all of them after a success, with never more quarantines than allowed; if the pairs were published a crash after any step is safe, and if they were settled it loses nothing but a file in transit. Without faults the run fails on a fitting request only for want of a quarantine name, with fewer than all records done |
| `RetentionHelper.Helper.ReadRequest` | scripts/postgres-retention-helper.py:547-555 | A request is read if and only if every line parses, there are at most 64, their names differ and the root is absolute |
| `PageFetch.FetchPage` | scripts/virustotal-subdomains.py:55-116 | At most `retries` requests; the result is what the last response says and all earlier ones said to try again; with fewer requests than that, the last answer was final, or a clock reading left no more than the next back-off until the deadline, or none for another request; the i-th back-off is `base_delay * 2^i`; no request may outlast the deadline and no sleep starts that would reach it |
| `PageFetch.FetchResultMeans` | scripts/virustotal-subdomains.py:77-110 | Each result stands for exactly these last responses: a page for a 200 with at most 40 records and an empty one for a 404; rate limited for a 429 without a challenge; not authorized for 401, 403 and a challenge; too large and unreachable for a call that raised, by its size; failed for all others. Every earlier response was one after which the source tries again |
| `PageFetch.TotalSleepIsBounded` | scripts/virustotal-subdomains.py:110-116 | All sleeps of a fetch together are at most `base_delay * (2^(retries-1) - 1)` |
| `PageFetch.FetchedPageFits` | scripts/virustotal-subdomains.py:84-92 | A fetched page never holds more than 40 entries |
| `PageEnumerator.OffsetsAreMultiples` | scripts/virustotal-subdomains.py:154-161 | The offsets are exactly the multiples of 40 from 40 up to below the limit, ascending |
| `PageEnumerator.RunPool` | scripts/virustotal-subdomains.py:163-199 | For every order of completion, the pool ends with every offset completed unless one was refused, and its names, pages, failures and stop reason are those of the completed offsets |
| `PageEnumerator.Recover` | scripts/virustotal-subdomains.py:200-209 | The recovery pass adds the second try of each failed offset once, in ascending order, and the first trouble is the stop reason |
| `PageEnumerator.Enumerate` | scripts/virustotal-subdomains.py:119-213 | For every order of completion the stop reason is the expected one (which `PageEnumerator.StopReasonIs` and `PageEnumerator.FirstPageDecides` spell out), the run is disciplined, and the host names are exactly those that the first page and the pages of the collected offsets show, all of them due ones that have a page; without a refusal in the pool the whole listing is the expected one, which mentions no order, and exactly the offsets either try answers are collected |
| `PageEnumerator.StopReasonIs` | scripts/virustotal-subdomains.py:163-213 | For a full first page and a reported total, the reason to stop is: not authorized if the first try of an asked offset is refused; else incomplete if one comes short of what is due there; else that of the first offset, in ascending order, whose second try fails or comes short; else the limit if it is below the total; else none |
| `PageEnumerator.FirstPageDecides` | scripts/virustotal-subdomains.py:152-161 | In all other cases the first page and the total decide: unknown total, incomplete, limit or none |
| `PageEnumerator.CompleteIsNotTruncated` | scripts/virustotal-subdomains.py:163-213 | For a full first page, the listing is not truncated if and only if the limit cuts nothing off and every multiple of 40 below the total gets a page that holds enough, on its first try or, where that failed, on its second |
| `PageEnumerator.DisciplineMeans` | scripts/virustotal-subdomains.py:163-209 | In a disciplined run at most `workers` pages are in flight at any time, no offset is submitted or collected twice, and after a refusal nothing is submitted or retried |
| `PageEnumerator.NotTruncatedIsComplete` | scripts/virustotal-subdomains.py:146-213 | If the result is not truncated and n was reported, every multiple of 40 below n is collected exactly once and the pages hold at least n entries together |
| `PageEnumerator.SortedFailures` | scripts/virustotal-subdomains.py:201-203 | Whatever order failures came in, the recovery pass takes them in the order of the offsets |
| `PortalCache.Merge` | apps/web/react/src/lib/api.ts:811-839 | Merging results one after another gives what the set of results determines: successful values over the old ones, errors of other datasets kept, failed marks gone, gated marks gone on a fresh feature read |
| `PortalCache.MergedErrorAt` | apps/web/react/src/lib/api.ts:821-833 | A merge sets every error key of a failed dataset, clears every key of a successful one and leaves all other keys |
| `PortalCache.MergedMarkAt` | apps/web/react/src/lib/api.ts:817-833 | After a merge a dataset is marked if and only if its result succeeded, or it had no result, was marked and was not unmarked by a fresh feature read |
| `PortalRuns.LastResultIsTheValue` | apps/web/react/src/lib/api.ts:811-842 | After any run, the value of a dataset is that of the last successful result since a reset, whatever other calls committed in between: no commit loses another one's value |
| `PortalRuns.NoResultIsEmpty` | apps/web/react/src/lib/api.ts:606-613 | Without such a result a dataset is empty |
| `PortalRuns.MarkedMeansLoaded` | apps/web/react/src/lib/api.ts:817-833 | A dataset is marked loaded if and only if some result loaded it and since then there was no reset, no failed result and, if it is gated, no fresh feature read without it |
| `PortalRuns.ErrorMeansLastFailed` | apps/web/react/src/lib/api.ts:821-833 | A load error is shown if and only if the last result since a reset failed, and it is that result's error |
| `PortalRuns.LoadedHasNoError` | apps/web/react/src/lib/api.ts:798-844 | After any run, a dataset marked loaded has no load error under any of its keys |
| `PortalCalls.RequestedMeans` | apps/web/react/src/lib/api.ts:591-604 | A call asks for exactly the named datasets, the core ones where wanted, and the feature flags whenever one of the named is gated; none twice |
| `PortalCalls.PlanLoads` | apps/web/react/src/lib/api.ts:798-807 | Exactly the requested, readable datasets are loaded that are not marked in the cache, or all of them when forced, or the notifications on their own page |
| `PortalCalls.GatedNeedsItsFlag` | apps/web/react/src/lib/api.ts:729-753 | A gated dataset is asked of the server only behind the flag of its own gate, which `PortalCalls.GateDecides` names, read now or marked in the cache |
| `PortalCalls.GateDecides` | apps/web/react/src/lib/api.ts:729-753 | A gated dataset that a call loads follows the server's answer if and only if it applies to the session, the flags are known and the flag of its own gate is set among them; otherwise it is empty, with the error of the flags if and only if they are unknown |
| `PortalCalls.UnknownGateIsAFailure` | apps/web/react/src/lib/api.ts:733-753 | If the flags cannot be read and none are cached, every gated dataset of the call is a visible failure, never an empty success |
| `PortalCalls.RequestedIsLoaded` | apps/web/react/src/lib/api.ts:798-833 | After a call all of whose results succeed, with no mark taken away since it began, a dataset it asked for is marked loaded if and only if it is not a gated one that was marked before when an unforced call reads the flags anew |
| `PortalHistories.FreshFlagsUnmark` | apps/web/react/src/lib/api.ts:798-820 | A run from an empty cache in which the next call asks for a gated dataset, succeeds in everything and leaves it without its mark: an earlier page loaded it and a forced read of the flags failed in between |
| `PortalCalls.FlagsStand` | apps/web/react/src/lib/api.ts:818-820 | While a gated dataset stays marked over records that refresh exactly when they bring flags, the cached flags are those right after the commit that loaded it |
| `PortalCalls.RunFlagsStand` | apps/web/react/src/lib/api.ts:798-843 | In every run of the cache that is so: while a gated dataset stays marked, the cached flags are those right after the commit that loaded it |
| `PortalCalls.CommitAgreesWithFlags` | apps/web/react/src/lib/api.ts:729-732 | The cached flags after a commit have the value its gated results were decided under if and only if the call read them itself or they have the value it found when it began |
| `PortalCalls.HiddenMeansStaleFlags` | apps/web/react/src/lib/api.ts:729-753 | For every call, cache and answers: the commit marks a gated dataset as loaded and empty under cached flags that enable it if and only if the call read no flags of its own with success, those it found were known and disable it, and those cached at the commit enable it |
| `PortalHistories.StaleFlagsHideADataset` | apps/web/react/src/lib/api.ts:729-753 | A run from an empty cache in which a page that began while the cached flags disabled a gated dataset commits after a forced call has read new flags and loaded it: whatever the server answers, the page's commit empties the dataset and leaves it marked although the cached flags enable it |
| `PortalCalls.Portal.Begin` | apps/web/react/src/lib/api.ts:685-728 | Starting a call changes nothing but the calls in flight, and the call remembers the cache entry it found |
| `PortalCalls.Portal.FeaturesArrive` | apps/web/react/src/lib/api.ts:725-728 | The flags that arrive, or an empty success where the call does not apply to the session, are kept for the call |
| `PortalCalls.Portal.LoadsArrive` | apps/web/react/src/lib/api.ts:808-843 | The results are merged into the entry the cache holds now and committed only if still wanted; the cache stays the replay of all commits and resets |
| `PortalCalls.Portal.Reset` | apps/web/react/src/lib/api.ts:580-582 | The cache is empty; calls in flight go on and may still commit |
| `EventStream.ReadStream` | apps/web/react/src/lib/api.ts:425-449 | However the text is cut into chunks, also inside a separator, the reports, the result and the failure are those of the whole text read at once, which `EventStream.TextSays` spells out |
| `EventStream.TextSays` | apps/web/react/src/lib/api.ts:427-449 | For every text, up to the first message that does not parse or reports an error: the reports are those of exactly the progress messages, in order, the result is that of the last result message, and the failure is that of the message at the end, or else that there is no result |
| `EventStream.FramesAreSplit` | apps/web/react/src/lib/api.ts:440-442 | A frame of lines that are not blank, with ends of either kind, and a blank line after it is split off as that frame |
| `EventStream.LinesAreSplit` | apps/web/react/src/lib/api.ts:428 | A frame is split into its lines, with ends of either kind |
| `EventStream.DataLinesAre` | apps/web/react/src/lib/api.ts:428 | Of the lines of a frame exactly those that begin with `data:` are taken, in order, without it and trimmed |
| `EventStream.DataIsSpelled` | apps/web/react/src/lib/api.ts:428 | The data of a frame is those, with a line feed between any two |
| `EventStream.TrimCuts` | apps/web/react/src/lib/api.ts:428 | What is trimmed at both ends is space, and what is left neither begins nor ends with any |
| `EventStream.SplitExtends` | apps/web/react/src/lib/api.ts:440-442 | Splitting what has arrived and then the rest with more text gives the split of the whole |
| `EventStream.NoEarlierGap` | apps/web/react/src/lib/api.ts:440-442 | More text never brings a separator before one that was already found |
| `EventStream.FailureIsFinal` | apps/web/react/src/lib/api.ts:427-443 | After an error message or one that does not parse, no later text changes the outcome |
| `EventStream.EncodedIsRead` | src/server.mjs:3668-3670 | The client takes in exactly the messages the server sends, in order, up to the first failure |
| `EventStream.EncodedHoldsMessages` | src/server.mjs:3668-3670 | The messages in what the server sends are those it sent |
| `EventStream.DataOfFrame` | apps/web/react/src/lib/api.ts:427-430 | The data of a frame the server writes is the message it was written for |
| `CustodyJson.Normalize` | apps/web/react/src/lib/custody.ts:4-15 | Sorting keys first and filling the object member by member gives the normal form |
| `CustodyJson.SameIsNormal` | apps/web/react/src/lib/custody.ts:4-15 | Values that are equal but for the order of keys and for undefined members, at any depth, have the same normal form |
| `CustodyJson.NormalIsSame` | apps/web/react/src/lib/custody.ts:4-15 | Values with the same normal form are equal but for that |
| `CustodyJson.PrecedesMeans` | apps/web/react/src/lib/custody.ts:4-15 | A key comes before another if and only if, at the first place where they differ, its code unit is the smaller number, or it ends there |
| `CustodyJson.NormalFormIsNormal` | apps/web/react/src/lib/custody.ts:4-15 | In a normal form nothing is undefined and keys are in strict code unit order as `CustodyJson.PrecedesMeans` states it, at any depth, in the order in which the members are written |
| `CustodyJson.NormalIsIdempotent` | apps/web/react/src/lib/custody.ts:4-15 | Normalizing twice is normalizing once |
| `CustodyText.QuoteIsUnique` | apps/web/react/src/lib/custody.ts:17-28 | A quoted string, followed by anything, is the text of one string only: escapes, control characters and lone surrogates included |
| `CustodyText.ValueIsUnique` | apps/web/react/src/lib/custody.ts:17-28 | A canonical text, followed by something that can end a value, is the text of one normal value only, numbers that are not finite read as null |
| `CustodyText.CanonicalTextDecides` | apps/web/react/src/lib/custody.ts:30-32 | Two values have the same canonical text if and only if their normal forms agree, numbers that are not finite read as null |
| `CustodyText.CanonicalTextIsFaithful` | apps/web/react/src/lib/custody.ts:30-32 | For finite numbers, two values have the same canonical text if and only if they are equal but for key order and undefined members |
| `CustodyReader.CanonicalIsRead` | apps/web/react/src/lib/custody.ts:17-32 | A reader for JSON reads the canonical text of every value back as its normal form, numbers that are not finite as null, with nothing left over |
| `CustodyReader.ValueIsRead` | apps/web/react/src/lib/custody.ts:17-28 | So it does with the text of a normal value followed by anything that can end a value |
| `CustodyReader.UnitIsWritten` | apps/web/react/src/lib/custody.ts:17-28 | Seven code units are written with their short escapes; other control units, and surrogates without their other half, with `\u` and four lower-case hexadecimal digits of their value; every other unit as itself |
| `CustodyReader.LoneMeans` | apps/web/react/src/lib/custody.ts:17-28 | A surrogate is without its other half if and only if it is a high one not before a low one or a low one not after a high one |
| `CustodyText.NotANumberReadsAsNull` | apps/web/react/src/lib/custody.ts:17-22 | A number that is not finite has the text of null, though the values differ |
| `DomainForest.NearestIsLongest` | apps/web/react/src/lib/subdomain-grouping.ts:68-76 | A target has a nearest ancestor if and only if it has one at all, and it is a declared ancestor with the longest host |
| `DomainForest.SubdomainMeans` | apps/web/react/src/lib/subdomain-grouping.ts:32-34 | A host is under another if and only if it is some text, a dot and that other one, which is not empty |
| `DomainForest.NodesHold` | apps/web/react/src/lib/subdomain-grouping.ts:44-46 | The targets considered are those with an id and a host, as often as they occur |
| `DomainForest.HiddenHaveParents` | apps/web/react/src/lib/subdomain-grouping.ts:43-77 | For every list of targets, also with repeated ids, a target is hidden if and only if it has a parent |
| `DomainForest.RootIsShortest` | apps/web/react/src/lib/subdomain-grouping.ts:63-88 | No declared ancestor of a target has a shorter host than its root |
| `DomainForest.TopLevelAncestor` | apps/web/react/src/lib/subdomain-grouping.ts:80-88 | The loop ends for every map, also a cyclic one, where following parents ends |
| `DomainForest.FollowedPath` | apps/web/react/src/lib/subdomain-grouping.ts:80-88 | That is the end of a path of parents, at an id without a parent or at one that came up before |
| `DomainForest.FollowEndsAtRoot` | apps/web/react/src/lib/subdomain-grouping.ts:80-88 | Where an id stands for one target, following parents from a target ends because there is no further parent, at its root, which is not hidden |
| `DomainForest.PathDoesNotReturn` | apps/web/react/src/lib/subdomain-grouping.ts:80-88 | A path of parents comes back to an id only over an id that stands for two targets, so without one the guard against it never applies |
| `DomainForest.ReturnsMeansTrapped` | apps/web/react/src/lib/subdomain-grouping.ts:80-88 | For every parent map, following parents ends because an id comes up again if and only if the id it starts from belongs to a set of ids that all have a parent in the set |
| `DomainForest.TrapSharesAnId` | apps/web/react/src/lib/subdomain-grouping.ts:63-88 | In the parent map of any list of targets, where there is such a set one of its ids stands for two targets |
| `DomainForest.SharedIdsCanCycle` | apps/web/react/src/lib/subdomain-grouping.ts:63-88 | Two ids that each stand for two targets can make the parents a cycle |
| `DomainForest.UnderMeansRoot` | apps/web/react/src/lib/subdomain-grouping.ts:54-59 | What counts as a child of a top-level target is what has its host as root |
| `DomainForest.CountsMeetHidden` | apps/web/react/src/lib/subdomain-grouping.ts:43-60 | The child counts shown add up to at least the number of hidden targets, and to exactly that if and only if no two visible targets of a group have the same host and something under it |
| `DomainForest.FindHidden` | apps/web/react/src/lib/subdomain-grouping.ts:47-52 | The loop finds the hidden ids |
| `DomainForest.FindParents` | apps/web/react/src/lib/subdomain-grouping.ts:67-77 | The nested loops find the parent map |
| `DomainForest.CountChildren` | apps/web/react/src/lib/subdomain-grouping.ts:53-59 | The loop finds the counts of the visible targets that have something under them |
| `PostureRollup.GatheredHold` | apps/web/react/src/lib/dashboard-metrics.ts:200-209 | Every row is a member once for each domain row that has the id of its top |
| `PostureRollup.GatheredOnce` | apps/web/react/src/lib/dashboard-metrics.ts:200-209 | With different ids, exactly the rows whose domain is listed are members, each once |
| `PostureRollup.OpenFindingsAreConserved` | apps/web/react/src/lib/dashboard-metrics.ts:206-214 | Open findings of the domains add up to the total if and only if those of rows without a domain equal those counted again; if none is counted again, if and only if every row with an open finding has its domain listed; if none is lost, if and only if no such row has it listed twice |
| `PostureRollup.HostCountsAreConserved` | apps/web/react/src/lib/dashboard-metrics.ts:206-215 | Host counts add up to the number of rows in the same cases, each row counting as one host |
| `PostureRollup.TestedHostsAreConserved` | apps/web/react/src/lib/dashboard-metrics.ts:206-216 | Tested hosts add up in the same cases, each row with a result of its own counting as one |
| `PostureRollup.LandsInOneDomain` | apps/web/react/src/lib/dashboard-metrics.ts:200-209 | Every row is a member of exactly one domain if and only if every row has its domain listed, and listed once |
| `PostureRollup.MissingDomainLoses` | apps/web/react/src/lib/dashboard-metrics.ts:206-209 | A row alone whose domain is another id is not shown, and its host and open findings are not counted |
| `PostureRollup.SharedIdDoubles` | apps/web/react/src/lib/dashboard-metrics.ts:200-216 | Two rows that share the id of a domain both have it listed, and their hosts and open findings are counted twice |
| `PostureRollup.WorstIsNoResult` | apps/web/react/src/lib/dashboard-metrics.ts:199-210 | A domain reads none if and only if every member is none with no open finding |
| `PostureRollup.WorstIsWorst` | apps/web/react/src/lib/dashboard-metrics.ts:210-213 | The status of a domain is that of a member and no member's is worse |
| `PostureRollup.WorstMeans` | apps/web/react/src/lib/dashboard-metrics.ts:192-210 | A domain reads gap if and only if a member is a gap or has open findings and no result; review if and only if none is and some member is under review; pass if and only if neither and some member passes |
| `PostureRollup.BuiltMeans` | apps/web/react/src/lib/dashboard-metrics.ts:277-279 | A row passes if and only if its verdict does and it has no open finding; a passing verdict with open findings reads review, and no other verdict is changed |
| `PostureRollup.OpenFindingShows` | apps/web/react/src/lib/dashboard-metrics.ts:277-279 | An open finding on any target of a domain makes the domain read gap or review |
| `PostureRollup.RollUp` | apps/web/react/src/lib/dashboard-metrics.ts:198-220 | The loops and the sort give one row for each domain with its members folded in, worst first and then by value |
| `PostureRollup.RolledRow` | apps/web/react/src/lib/dashboard-metrics.ts:206-217 | Every domain keeps its id and value and shows the worst status, the sum of open findings, the number and the number of tested ones of its members |
| `PostureRollup.RootsHold` | apps/web/react/src/lib/dashboard-metrics.ts:206-207 | The domains are the rows that are their own top, as often as they occur |
| `PostureRollup.TestedMeans` | apps/web/react/src/lib/dashboard-metrics.ts:199-216 | A member is tested if and only if it has a result or an open finding |
| `PostureRollup.OrderMeans` | apps/web/react/src/lib/dashboard-metrics.ts:204-219 | Gap comes before review, review before no result, that before pass, and equal ones by value |
| `PostureRollup.RolledUpInOrder` | apps/web/react/src/lib/dashboard-metrics.ts:205-219 | The list is in that order, holds exactly the rolled-up rows and keeps their sums |
| `DomainPosture.FollowingEndsAtTop` | apps/web/react/src/lib/subdomain-grouping.ts:80-88 | Following parents from any id, of a target or not, ends at its root or at itself |
| `DomainPosture.ForestConserves` | apps/web/react/src/lib/dashboard-metrics.ts:198-220 | Along the forest of targets, open findings and host counts add up to the totals and every row is in exactly one domain |
| `DomainPosture.DomainRowsAreVisible` | apps/web/react/src/lib/subdomain-grouping.ts:47-52 | No domain row is one that the target list hides |
| `FindingRules.GroupByRule` | apps/web/react/src/lib/findings-helpers.ts:410-479 | One group for each rule, in order of appearance, whose members are the findings of that rule and whose counts, times, severity and representative are theirs |
| `FindingRules.GroupsPartition` | apps/web/react/src/lib/findings-helpers.ts:414-422 | The groups share out the findings as a multiset |
| `FindingRules.CountsAddUp` | apps/web/react/src/lib/findings-helpers.ts:437-439 | The status counts of a group add up to its size, for statuses that are not names a plain object inherits |
| `FindingRules.LeaderIsFirst` | apps/web/react/src/lib/findings-helpers.ts:397-403 | No member comes before the representative: open first, then the worst severity, then the earliest opening, an unknown one last |
| `FindingRules.ComesFirstMeans` | apps/web/react/src/lib/findings-helpers.ts:397-403 | For dates that can be: one finding is not after another if and only if only it is open, or both or neither are and it is worse in the order critical, high, medium, low, info, unknown, or they are equally severe and it was opened no later, one without a date last |
| `FindingRules.LeastIsLeast` | apps/web/react/src/lib/findings-helpers.ts:447-457 | A running minimum is the time of a member and no member's is earlier; it is none if and only if no member has one |
| `FindingRules.DangerMeansPastDue` | apps/web/react/src/lib/findings-helpers.ts:493-531 | The deadline cell is red if and only if the earliest due time of an active member is past, if and only if some member is individually in breach, and then it counts exactly those |
| `FindingRules.WarnMeansDueSoon` | apps/web/react/src/lib/findings-helpers.ts:517-531 | It is amber if and only if nothing is in breach and the earliest due time, if not zero, is less than 24 and a half hours away |
| `FindingRules.CellReads` | apps/web/react/src/lib/findings-helpers.ts:493-531 | The cell reads overdue if and only if a member that is open or in progress has been so for more than one, two, three or seven days by its severity; pending if and only if some is active, none is late and no due time but zero is known; on track if and only if the earliest due time is at least 24 and a half hours away; and hours left, the nearest whole number of them, if and only if it is amber |
| `FindingRules.TimesMean` | apps/web/react/src/lib/findings-helpers.ts:96-396 | The due time of a finding is its opening and one, two, three or seven days by its severity if it is open or in progress; its closing counts if and only if it is closed or resolved |
| `FindingRules.ClosedMeansAllClosed` | apps/web/react/src/lib/findings-helpers.ts:499-512 | A group reads closed, on the last closing, if and only if it has members and every one is closed or resolved, and risk accepted if and only if every one is accepted: one is never presented as the other |
| `ReportDiff.SnapshotHolds` | apps/web/react/src/lib/report-diff.ts:82-91 | A snapshot holds exactly the ids of the rows that have one, each with the last row of that id, in the order in which they first appear |
| `ReportDiff.DiffReports` | apps/web/react/src/lib/report-diff.ts:131-178 | Reports are compared if and only if there is a baseline and both are frozen and complete; otherwise the first reason that applies is given |
| `ReportDiff.DiffSnapshots` | apps/web/react/src/lib/report-diff.ts:141-167 | The two loops collect the four lists and the count of unchanged findings |
| `ReportDiff.DiffRebuilds` | apps/web/react/src/lib/report-diff.ts:141-167 | Carried out on the earlier report, the differences give the status and severity of every current finding, and no other finding |
| `ReportDiff.EveryFindingCounts` | apps/web/react/src/lib/report-diff.ts:148-164 | Added, changed and unchanged findings together are as many as the current ones |
| `ReportDiff.SwappingTurnsAround` | apps/web/react/src/lib/report-diff.ts:131-178 | Swapping the reports swaps added with removed and every from with to |
| `ReportDiff.StatusChangeMeans` | apps/web/react/src/lib/report-diff.ts:155-158 | A change of status holds the current finding, and is flagged as newly accepted if and only if its new status is accepted or accepted risk and its old one neither |
| `ReportDiff.MissingInOrder` | apps/web/react/src/lib/report-diff.ts:141-167 | Added findings are listed in the order of the current report and removed ones in that of the earlier one |
| `ReportDiff.StatusChangesInOrder` | apps/web/react/src/lib/report-diff.ts:148-158 | Changes of status are listed in the order of the current report |
| `ReportDiff.SeverityChangesInOrder` | apps/web/react/src/lib/report-diff.ts:158-163 | So are changes of severity, each with the current finding |

## Left out

- Retention: the `ctypes` binding and choice of platform, closing descriptors, command-line arguments and the JSON checkpoint protocol; a rename is one atomic no-replace call, a checkpoint is an interference point that may also abort.
- Retention: inode numbers are never given to a second inode, and a rename within one directory is not modelled, since the helper makes none.
- Retention: data blocks of files are durable as soon as they are truncated; only directory entries have a volatile and a durable view.
- RetentionHelper.Helper.ValidateBudget: the trace does not record what a directory listing returned, so that every listed quarantine is looked at and that they are few enough is stated for runs that nobody disturbs; under interference it is stated that the root was found live, was listed, and every quarantine looked at is private.
- RetentionHelper.Helper.Prune: undisturbed runs are specified for disks on which a regular file with link count one has one name in the root; the link count itself is not recomputed from the directories.
- RetentionHelper.Helper.Prune: which view each directory comes back as is arbitrary, but a rename that the root shows and the quarantine does not, or the other way round, is taken to be possible on every filesystem; one that makes a rename atomic across two directories has no window.
- RetentionHelper.Helper.Prune: a run that finds no free quarantine name in sixteen tries ends with fewer records done; how likely that is depends on the random names.
- Page enumeration: headers, proxy, URL building, domain validation, progress events and the HTTP client; a page is a list of optional host names, and its outcome is a function of offset and try.
- Page enumeration: host names are a set, the sorted list in the result is determined by it.
- PageEnumerator.Enumerate: with a refusal in the pool, which offsets are collected depends on the order of completion, so host names and page count are stated in terms of those.
- Portal cache: the projections from a payload to fields of the page data, the table of datasets by route and by role, and which error text comes first in the summary; a dataset is a core one, the notifications, a gated one or another one.
- Event stream: the text decoder, a byte order mark, idle timeouts, aborts and the inside of `JSON.parse`; parsing is an arbitrary partial function.
- CustodyJson.NormalFormIsNormal: an object of the original lists keys that look like array indices first and in numeric order; the model keeps the order in which members are written. The text is not concerned, it sorts the keys itself.
- Custody: SHA-256, the manifest, sparse arrays, functions, symbols, big integers, `__proto__` keys and number formatting; a finite number is its shortest decimal text, so both zeros are one.
- Domain forest: how a host is read from a target's kind and value.
- Posture rows: picking the newest run of a target and the descriptive columns of a row.
- FindingRules.CountsAddUp: the counts are kept in a plain object, so a status named `constructor` or `__proto__` would meet an inherited member there; in the model every status starts without a count.
- Findings: rule keys, titles, assets, owners, date parsing and the wording of the deadline cell.
- Reports: readiness scores, baselines eligible by scope, and titles of changed findings.
- React pages, hooks, styles, navigation, login and session tables, lab servers and the rest of the API: user interface, I/O or finite tables.
