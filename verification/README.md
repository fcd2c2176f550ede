# Verified model of the ShortLink services

ShortLink is a URL shortener. This project models the logic of its five services in Dafny and proves
what each of them is there for, over every input, every history of calls and every interleaving.

| files | what they model |
|---|---|
| `QrLayout`, `QrWalk`, `QrBits`, `QrCapacity`, `QrRoundTrip`, `QrReadBack`, `QrPicture`, `QrEncoder`, `QrRender` | the QR symbol builder: the passes over a matrix and a map of reserved modules, in place, and the picture drawn from it |
| `AccessLog`, `AccessLogService` | the access-log pipeline: bounded channel, workers with local batches, retries, fallback file, stop and drain |
| `LinkStore`, `LinkService`, `IpRanges` | the link table with the cache in front of it, and the check of target addresses |
| `BatchJobs`, `BatchRows`, `BatchBalance`, `BatchRuns`, `BatchOrigin`, `BatchService`, `IdempotencyKey` | batch jobs: idempotent submission, bounded queue, workers, status machine and rollback |
| `RedisCache`, `Counters`, `Analytics`, `ApiKeys`, `CounterRuns` | counters with an expiry: realtime buckets, dedup window, rate per minute, quota per day |
| `Clock`, `Numbers`, `Sequences`, `Text`, `Wrappers` | lengths of time, facts about division, sequences without duplicates, numerals inside keys, option and result types |

Concurrent parts (`AccessLog`, `BatchJobs`) are step systems: a run is any sequence of enabled steps
of any callers and workers. The service objects (`AccessLogService.Service`, `LinkService.Service`,
`BatchService.Service`, `Analytics.Service`, `ApiKeys.Service`) are classes whose methods update
fields as the source does; each is proved against a function or a run of the step system.

## What the code does, where that is not what one expects

* The pad and cut step gives a symbol of version v exactly 128(v+1) bits, so only the first 14+16v
  bytes survive whole, and of the next one only the high half. The table of versions promises up to
  586 bytes, but a reader gets a string back iff it has at most 255 bytes (the length field has eight
  bits) and is zero where the budget cuts (`QrRoundTrip.Fits`). The lengths at which every string comes
  back are exactly those of up to 94 bytes, and 107 to 110 (`QrRoundTrip.ShortStringsFit`); 95 letters
  are a string that does not (`QrRoundTrip.NinetyFiveLost`). Above 586 bytes the version is 10.
* The format pass writes modules that no earlier pass has reserved, and overwrites data bits there. What
  a reader of the returned symbol finds is computed from the string alone (`QrReadBack.FinalBit`), and
  it is the string iff each bit of its stream is what the format info and the budget leave there
  (`QrReadBack.SurvivesFormat`, in the contract of `QrEncoder.EncodeQr`). A string longer than its
  version number is lost unless its byte of that number has a 1 and a 0 where the first format bits
  fall (`QrReadBack.ByteMustFit`). So no web address of at most 53 bytes comes back
  (`QrReadBack.WebAddressLost`), while a string of at most as many bytes as its version number always does
  (`QrReadBack.BeforeFormat`).
* An access recorded when no log worker takes entries any more is accepted and never written
  (`AccessLog.LateCallStranded`). Calls between the stop signal and that moment are written: every
  accepted entry reaches exactly one sink iff none is accepted later (`AccessLog.DrainedCompletely`).
* A batch job refused because the queue is full is failed, but keeps its row and its key: the same
  URLs can never be submitted again by that user. Its counters stay zero, so the counters of an ended
  job add up to its items iff it was not refused or has no items (`BatchRuns.BatchesAllOrNothing`,
  with `BatchRuns.TurnedAwayUncounted` as the failing case).
* The idempotency key looks at URLs only: codes, titles and expiry times do not matter. Because
  URLs may hold the separator `|`, a batch has the hashed text to itself iff it is a single URL, not
  empty, that cannot be cut at a `|` into two parts in order (`IdempotencyKey.UnmistakableIff`); every
  batch of two or more URLs shares it with the one URL that is its joined list. Among batches without
  `|` the only collision is no URL against one empty URL (`IdempotencyKey.SameTextIff`).
* A dedup window of zero or less sets no expiry, so only the first access ever is unique, and the unique
  accesses are a largest choice only if there is at most one access (`Analytics.UniqueIsLargestIff`).
* A realtime bucket is gone ten minutes after its last call, so a query over more than ten minutes can
  miss calls; its sum is the call count iff every bucket in it that has calls has one in the last ten
  minutes (`Analytics.RealtimeCounts`).
* The owner of a link can delete it while the job that made it still runs, or later. A completed job
  then reports a link that is gone: it has all its rows iff nobody else has deleted one
  (`BatchRuns.BatchesAllOrNothing`).
* With no batch workers configured, the jobs left in the queue at a shutdown stay pending
  (`BatchRuns.AllJobsEnd`).
* API keys are told apart by eight characters, of which three are fixed. Keys with the same prefix
  share their counters; the limits hold for each key all the same.
* The limiter of a minute can let twice its rate pass within sixty seconds, and no more
  (`CounterRuns.RateBounded`, `CounterRuns.TwiceIsReached`).

## Modelling choices

* A string is the sequence of its bytes; a QR string is a sequence of bytes. A bit is a `bool`.
* The clock counts whole seconds and is in UTC. Calendar dates are any texts that differ from day to
  day and hold no colon.
* What comes from outside is a parameter: the random codes, the results of URL parsing and of name
  lookup, whether another insert takes a code first, which writes to the database succeed, whether the
  counter store can be reached, the hash function.
* The rounded-up quotient that the source takes in floating point is the integer one.
* Service calls on the cache are serialised. Other users may call the link service at any time, and
  delete what a job has made; only a job's worker writes the job's tag on a row, as in the source.
* The capacity of the log channel is at least one in the intended use; a channel of capacity zero would
  hand over entries directly, which the model does not do.

## Model

| member | source | states |
|---|---|---|
| QrLayout.PositionsIncrease | internal/service/qrcode_service.go:163-183 | for every version from 2 on, not only the 16 in use: version/7+2 alignment positions, strictly increasing, even, from 6 to size-7 |
| QrLayout.StepBounds | internal/service/qrcode_service.go:169-173 | the rounded-up even step stays within 28 |
| QrLayout.PositionsSpread | internal/service/qrcode_service.go:163-183 | two positions of a version up to 40 differ by more than a pattern's width, so the in-place patterns never touch each other |
| QrLayout.TimingAgrees | internal/service/qrcode_service.go:185-192 | where the timing pass rewrites a module of an alignment pattern it writes the colour that is there |
| QrLayout.AlignmentClear | internal/service/qrcode_service.go:138-161 | a pattern drawn only when its centre is unreserved is clear of all finder zones as a whole |
| QrLayout.FormatClear | internal/service/qrcode_service.go:246-264 | no format write meets a finder, separator, timing, alignment or dark module |
| QrLayout.FormatCells | internal/service/qrcode_service.go:246-264 | the modules the two copies of the format bits go to are exactly a described set |
| QrLayout.TimingColumnTaken | internal/service/qrcode_service.go:185-192 | finder zones and timing pattern take all of column 6, the column that the walk skips |
| QrWalk.WalkCovers | internal/service/qrcode_service.go:200-231 | for odd sizes the zigzag walk meets exactly the modules outside column 6 |
| QrWalk.WalkDistinct | internal/service/qrcode_service.go:200-231 | and meets no module twice |
| QrWalk.FreeModuleIff | internal/service/qrcode_service.go:216-223 | with any reserved map, the modules written are the unreserved ones outside column 6 |
| QrCapacity.EveryModuleOnce | internal/service/qrcode_service.go:200-231 | in a symbol every module that belongs to no pattern is a data module exactly once, and no other is |
| QrCapacity.ModuleCount | internal/service/qrcode_service.go:42-66 | a lower bound on the number of data modules, by counting what the patterns can take |
| QrCapacity.EnoughModules | internal/service/qrcode_service.go:68-115 | the chosen version always has room for header and the bytes that the length field can name |
| QrPicture.PositionsTable | internal/service/qrcode_service.go:163-183 | the alignment positions of versions 1 to 16, as numbers |
| QrPicture.PatternModules | internal/service/qrcode_service.go:117-198 | which modules belong to a pattern, by row and column: three 8x8 corners, row 6, column 6, the dark module, and 5x5 around the listed centres outside the finder corners |
| QrPicture.DataModulesInOrder | internal/service/qrcode_service.go:200-231 | the data modules come in the order of an independent description: column pairs from the right, upwards and downwards in turn, the right column of a pair first; none is missing and none comes twice |
| QrBits.BitsRoundTrip | internal/service/qrcode_service.go:84-98 | writing a number bit by bit and reading it back gives the number modulo its width |
| QrBits.SelectVersion | internal/service/qrcode_service.go:68-76 | the least version whose capacity holds the length, with the sixteen capacities as numbers; 10 when none does |
| QrBits.EncodeData | internal/service/qrcode_service.go:78-99 | bit by bit: 0100, the length modulo 256 and the bytes, each bit by its weight 128 to 1, then four zeros |
| QrBits.AddEcc | internal/service/qrcode_service.go:101-115 | exactly 128(version+1) bits: the data bits as far as they fit, then ones exactly at the bits of 0xEC and 0x11 in turn |
| QrRoundTrip.DecodedSymbol | internal/service/qrcode_service.go:78-115 | for every string: a reader finds its length modulo 256 and what the budget leaves of each byte |
| QrRoundTrip.ReadBackIffFits | internal/service/qrcode_service.go:68-115 | the symbol decodes to the original string iff the string fits, for strings of any length |
| QrRoundTrip.ShortStringsFit | internal/service/qrcode_service.go:68-115 | every string of a length fits iff the length is at most 94, or 107 to 110 |
| QrRoundTrip.NinetyFiveLost | internal/service/qrcode_service.go:68-115 | 95 letters are not read back from their symbol |
| QrEncoder.AddFinderPatterns | internal/service/qrcode_service.go:117-136 | after the pass the three finders and their separators have their colours and are reserved; nothing else changes |
| QrEncoder.ComputeAlignmentPositions | internal/service/qrcode_service.go:163-183 | the loop computes the positions of which the lemmas above speak |
| QrEncoder.AddAlignmentPatterns | internal/service/qrcode_service.go:138-161 | the double loop draws exactly the patterns whose centre no finder occupies, and reserves them |
| QrEncoder.SquarePainted | internal/service/qrcode_service.go:55-56 | after the alignment pass every finder and alignment module has its colour |
| QrEncoder.LineColour | internal/service/qrcode_service.go:57-58 | the timing and dark-module passes keep the colour of every pattern module they overlap |
| QrEncoder.AddTimingPatterns | internal/service/qrcode_service.go:185-192 | the two lines alternate from black at even indices; nothing else changes |
| QrEncoder.AddDarkModule | internal/service/qrcode_service.go:194-198 | one module becomes black and reserved |
| QrEncoder.PlaceData | internal/service/qrcode_service.go:200-231 | the k-th data module of the walk holds bit k; every other module keeps its colour |
| QrEncoder.ApplyMask | internal/service/qrcode_service.go:233-244 | flips exactly the unreserved modules whose row and column add up to an even number |
| QrEncoder.MaskTwice | internal/service/qrcode_service.go:233-244 | masking twice is the identity, and reserved modules never change |
| QrEncoder.AddFormatInfo | internal/service/qrcode_service.go:246-264 | both copies hold the fixed format bits; nothing else changes |
| QrEncoder.BuildSymbol | internal/service/qrcode_service.go:42-62 | after the mask every pattern module has its pattern's colour, and unmasking, walking and decoding gives back the string iff it fits |
| QrReadBack.DecodesIff | internal/service/qrcode_service.go:78-99 | for any bits: a decoder finds this string iff it has at most 255 bytes and the bits begin with its stream |
| QrReadBack.FinalDecodesIff | internal/service/qrcode_service.go:42-66 | the returned symbol decodes to the string iff no bit of its stream has been changed by the format info or cut by the budget |
| QrReadBack.FirstTaken | internal/service/qrcode_service.go:258-260 | the format info takes the two data modules of the fifth and sixth bit of the byte whose number is the version |
| QrReadBack.ByteMustFit | internal/service/qrcode_service.go:246-264 | a longer string is read back only if that byte has a 1 and a 0 there |
| QrReadBack.BeforeFormat | internal/service/qrcode_service.go:246-264 | a string of at most as many bytes as its version number is always read back |
| QrReadBack.WebAddressLost | internal/service/qrcode_service.go:22-24 | no string of at most 53 bytes that starts with http is read back from the returned symbol |
| QrEncoder.EncodeQr | internal/service/qrcode_service.go:42-66 | for every string: finders, separators, lines, dark module and alignment patterns are in place by row and column; both format copies are complete; each other data module is the next bit of the padded stream, flipped where row and column add up to an even number; and the symbol decodes to the string iff the string survives the format info |
| QrRender.LargestSide | internal/service/qrcode_service.go:266-275 | the side is the largest multiple of modules+8 not above the size asked for, or modules+8 if that is too small for one |
| QrRender.RenderQrImage | internal/service/qrcode_service.go:266-297 | a pixel is black iff it lies inside the four-module border and its module is black; all writes are in bounds |
| AccessLog.EveryEntryAccounted | internal/service/link_service.go:116-243 | in every reachable state: submitted = dropped + in channel + in batches + database + fallback as multisets, the counter counts the drops, the channel is within its capacity and each batch below 100, each worker's output is a subsequence of the accepted order |
| AccessLog.RunKeepsInv | internal/service/link_service.go:116-243 | every step of every interleaving keeps the order and the sums |
| AccessLog.DrainTerminates | internal/service/link_service.go:155-172 | after the stop signal, without calls, the changing steps of a run are bounded by a measure of channel, batches and live workers |
| AccessLog.DrainProgresses | internal/service/link_service.go:139-173 | and a worker that has not returned always has a step that changes something |
| AccessLog.DrainedCompletely | internal/service/link_service.go:116-243 | when all workers have returned, every accepted entry is in exactly one sink, once, iff no call was accepted after the last worker had stopped taking entries; runs may have calls at any time |
| AccessLog.LateOnesLeft | internal/service/link_service.go:116-243 | then exactly the late calls are left in the channel; without calls it is empty |
| AccessLog.EveryAcceptedWrittenIff | internal/service/link_service.go:116-243 | the same over every run from the start |
| AccessLog.LateCallStranded | internal/service/link_service.go:226-243 | a concrete run in which a call after the workers' return leaves an accepted entry unwritten |
| AccessLog.ReturnedForGood | internal/service/link_service.go:155-172 | once the workers have returned nothing reaches a sink any more |
| AccessLog.FlushedAtHundred | internal/service/link_service.go:116-153 | entries leave the channel in order; the hundredth of a batch starts the write of all hundred, an earlier one only waits |
| AccessLog.GatheredIsWritten | internal/service/link_service.go:154-170 | the ticker and the end of the drain loop start a write of what has gathered; with nothing gathered the drain loop returns |
| AccessLog.FourthFailureFallsBack | internal/service/link_service.go:176-197 | three failed attempts are repeated, the fourth puts the whole batch into the fallback, a success into the database |
| AccessLogService.Service.RecordAccess | internal/service/link_service.go:226-243 | the entry holds link, address, agent, referer and time as passed; it goes to the end of the channel if there is room, else the drop is counted; it is the recording step |
| AccessLogService.Service.WriteBatchWithRetry | internal/service/link_service.go:176-197 | one to four attempts, all but the last failed; 0, 500, 1500 or 3500 ms asleep; the whole batch in the database if the last attempt succeeds, else four attempts and all of it in the fallback |
| AccessLogService.FlushIsRun | internal/service/link_service.go:176-197 | a flush with any number of failures is a run of the step system |
| AccessLogService.Service.DrainAndReturn | internal/service/link_service.go:155-172 | the drain loop is a run of the step system that empties channel and batch |
| LinkStore.UnusedIsUnused | internal/service/link_service.go:471-483 | a generated code is in no row, and generation fails iff all of the first ten candidates are taken |
| LinkStore.ResolveAnswersTable | internal/service/link_service.go:322-362 | whatever is cached, Resolve answers what a lookup in the table alone would, and every cached code has a row with the cached URL |
| LinkStore.ResolveInRows | internal/service/link_service.go:322-362 | not found, inactive unless its status is active, expired iff its expiry has passed, else URL and id of the row; a success is cached for a day or up to the expiry, an expired live entry is dropped, nothing else changes |
| LinkStore.CreatedResolves | internal/service/link_service.go:253-301 | a link is made iff the target is allowed, a code is free and nobody else's insert takes it first; the row has owner, URL, title, expiry and tag as asked, is active, and has the code asked for or the first free one of ten candidates; it resolves to its URL until it expires; no other code is affected, and a refusal changes nothing |
| LinkStore.CreatedIsCached | internal/service/link_service.go:253-301 | a new row takes the next id, its code is indexed, and it is cached for a day or up to its expiry; a refusal has the reason: URL, no free candidate of ten, or a code that exists |
| LinkStore.UpdatedResolves | internal/service/link_service.go:364-394 | a missing id and a foreign owner are told apart; title, status and expiry are the given ones or the old ones, id, owner, code, URL and tag stay; the cache entry goes, the very next resolve sees the change, and no other code is affected |
| LinkStore.DeletedIsGone | internal/service/link_service.go:396-413 | a missing id and a foreign owner are told apart; row, index and cache entry of a deleted link go, it is not found at once, and no other code is affected; a forced deletion is the owner's deletion |
| LinkStore.PerformKeepsInv | internal/service/link_service.go:253-423 | every call, wait and eviction keeps the unique index and the agreement of cache and table |
| LinkStore.CacheTransparent | internal/service/link_service.go:253-423 | over every run of calls, waits and evictions the answers are those of the same service without a cache |
| LinkService.Service.ValidateUrl | internal/service/link_service.go:494-531 | refuses iff the URL has another scheme than http or https, no host, the host localhost, an excluded address or a name that resolves to one; a failed lookup passes |
| LinkService.Service.GenerateUniqueCode | internal/service/link_service.go:471-483 | the loop finds the first free candidate among ten |
| LinkService.Service.CreateWithBatchId | internal/service/link_service.go:253-301 | row, index and cache entry as the specification says, or an error and no change |
| LinkService.Service.Resolve | internal/service/link_service.go:322-362 | answers the table's lookup and changes the cache at most |
| LinkService.Service.Update | internal/service/link_service.go:364-394 | changes the owner's row only, and drops its cache entry |
| LinkService.Service.Delete | internal/service/link_service.go:396-413 | removes the owner's row, index and cache entry, or reports why not |
| LinkService.Service.ForceDelete | internal/service/link_service.go:415-423 | removes row, index and cache entry of an id, if it exists |
| IpRanges.MaskedEqualIsInterval | internal/service/link_service.go:533-569 | for addresses of any width, equality under the mask is membership in the interval of numbers from the network's address on |
| IpRanges.NetworkSizeIsPower | internal/service/link_service.go:533-569 | that interval has 2^(width-prefix) addresses |
| IpRanges.TableCanonical | internal/service/link_service.go:534-558 | no network of the table has bits beyond its prefix |
| IpRanges.IsPrivateOrReservedIp | internal/service/link_service.go:533-569 | by the bytes of the address, the nineteen networks written out: which IPv4 addresses are reserved, which IPv6 ones, an IPv4-mapped one by its last four bytes, and none of any other length; it is the union of the table's intervals |
| IpRanges.MappedVerdict | internal/service/link_service.go:533-569 | an IPv4-mapped IPv6 address (section 2.5.5.2 of RFC 4291) gets the verdict of its IPv4 address |
| BatchJobs.StepKeepsJobs | internal/service/batch_service.go:43-227 | whatever other users do, every step keeps job rows, queue, submitters, owners and notes consistent |
| BatchJobs.FinishEndsJob | internal/service/batch_service.go:197-226 | the last step of a worker sets counters, results in order and status; completed iff no item has failed |
| BatchRows.ItemRows | internal/service/batch_service.go:173-195 | after one more item the rows with the job's tag are among those its worker has noted, with the item's URL, the code asked for and the reported code |
| BatchRows.UndoRows | internal/service/batch_service.go:197-201 | each undone row is gone, also if somebody else has deleted it before |
| BatchRows.StepFrame | internal/service/link_service.go:253-423 | no other step makes a row for the job, or changes tag, URL or code of one |
| BatchBalance.StepBalance | internal/service/batch_service.go:173-226 | the rows a job misses grow by one exactly when somebody else deletes one of them |
| BatchBalance.MadeAllIff | internal/service/batch_service.go:173-226 | a completed job has a row for every item iff it has as many rows as items |
| BatchRuns.InitInv | internal/service/batch_service.go:34-48 | a service that starts with no job has all invariants |
| BatchRuns.StepKeepsInv | internal/service/batch_service.go:43-227 | every step of submitters, workers and other users keeps all invariants |
| BatchRuns.RunsAreSafe | internal/service/batch_service.go:43-227 | over every interleaving, whatever other users do: one job per idempotency key, each job queued and taken at most once and in order, its status history a prefix of pending, running, completed or failed, or of pending, failed |
| BatchRuns.RunExtends | internal/service/batch_service.go:150-227 | a job keeps owner, key and items, and its history only grows |
| BatchRuns.TerminalStays | internal/service/batch_service.go:150-227 | no step changes a job that has ended |
| BatchRuns.FinishAllOrNothing | internal/service/batch_service.go:197-226 | when a worker finishes a job, a completed one has made one tagged row per item, and what is left of them has the URL and code that the results list; a failed one has none |
| BatchRuns.BatchesAllOrNothing | internal/service/batch_service.go:55-227 | over every interleaving, whatever other users do, for every ended job: a completed one misses exactly the rows that others have deleted, so it has one per item iff there are none such; a failed one has none; its counters add up iff it was not refused by a full queue or has no items |
| BatchRuns.TurnedAwayIffFull | internal/service/batch_service.go:89-96 | a job is refused iff the queue has no room when it is offered |
| BatchRuns.TurnedAwayUncounted | internal/service/batch_service.go:89-96 | a concrete run that ends a job with counters that do not add up |
| BatchRuns.AllJobsEnd | internal/service/batch_service.go:50-53 | when the queue is closed and the workers have returned, every job has ended iff there was a worker or nothing is queued |
| BatchRuns.EveryRunIsSafe | internal/service/batch_service.go:43-227 | RunsAreSafe over every run from a start without jobs |
| BatchRuns.EveryBatchAllOrNothing | internal/service/batch_service.go:43-227 | BatchesAllOrNothing over every run from there |
| BatchRuns.EveryJobEnds | internal/service/batch_service.go:50-53 | AllJobsEnd after every run from there, with any number of workers, none included |
| BatchOrigin.JobsAreSubmissions | internal/service/batch_service.go:55-99 | over every run, each job holds owner, items and key of a submission of the run, or is an old one |
| BatchOrigin.ItemMakesLink | internal/service/batch_service.go:173-195 | one more item makes an active link of the job's owner with the item's URL, title and expiry and the job's tag, and lists its code; or it changes no link and lists the reason |
| BatchOrigin.ItemProgressed | internal/service/batch_service.go:192-194 | at each tenth item the counters of the job become the numbers of items, successes and failures so far, and stay till the next |
| BatchOrigin.RunKeepsOrigin | internal/service/batch_service.go:150-227 | over every run, tagged rows belong to the owner of their job, and notes, counters and reports tell what became of each item |
| BatchOrigin.EverySubmissionFulfilled | internal/service/batch_service.go:55-227 | in every run from a start without jobs, each job has one submission's items and owner; a completed one has made one row per URL of it, owned by the submitter, under the code asked for, as reported; missing are only those that others have deleted |
| BatchOrigin.EveryFailureExplained | internal/service/batch_service.go:197-226 | in every such run a failed job was refused by the queue, or lists for each URL its own refusal or the rollback with the code, at least one being a refusal; a running one has counted its items up to the last tenth |
| BatchRuns.ShutdownTerminates | internal/service/batch_service.go:50-53 | after closing, the workers' steps are bounded by a measure, whatever other users do |
| BatchRuns.ShutdownProgresses | internal/service/batch_service.go:143-148 | and a worker that has not returned is never stuck |
| BatchService.SubmitKeepsInv | internal/service/batch_service.go:55-99 | an undisturbed submission is the three steps of a submitter and keeps every invariant |
| BatchService.SubmissionMakesJob | internal/service/batch_service.go:55-99 | too large a batch and a known key make no job; a new key makes one with the caller as owner, just these items and their number, counters at zero, pending in the queue or failed for lack of room; nothing else changes |
| BatchService.SubmittedOnce | internal/service/batch_service.go:55-99 | submitting the same URLs again in any order, after any run, gives the first submission's job and changes nothing |
| BatchService.TurnEndsJob | internal/service/batch_service.go:143-227 | one turn of the worker, alone, ends the job at the head of the queue with one row per item or none |
| BatchService.TurnLeavesNoTrace | internal/service/batch_service.go:197-210 | if it fails having run alone, rows, index and cache are exactly what they were before |
| BatchService.EmptiedEndsAll | internal/service/batch_service.go:50-53 | when the worker has emptied the closed queue, every job has ended |
| BatchService.WorkOffIsRun | internal/service/batch_service.go:150-227 | working a job off alone is a run of the step system that ends with its last status |
| BatchService.Service.SubmitAsync | internal/service/batch_service.go:55-99 | for the key of user and URLs, is the submission of which `BatchService.SubmissionMakesJob` tells |
| BatchService.Service.TryItem | internal/service/batch_service.go:173-195 | one round of the loop is the item step, with its progress update at every tenth item |
| BatchService.Service.RollBack | internal/service/batch_service.go:198-201 | the deletion loop is the undoing of the step system |
| BatchService.Service.EndJob | internal/service/batch_service.go:197-226 | rollback, counters, report and status are those of the step system |
| BatchService.Service.ProcessJob | internal/service/batch_service.go:150-227 | takes the head of the queue and works it off |
| BatchService.Service.Shutdown | internal/service/batch_service.go:50-53 | closes the queue and works off all that is in it |
| IdempotencyKey.OrderIrrelevant | internal/service/batch_service.go:284-293 | the hashed text depends only on the user and the multiset of URLs |
| IdempotencyKey.SameTextIff | internal/service/batch_service.go:284-293 | for URLs without the separator: same text iff same user and same multiset, or no URL against one empty URL |
| IdempotencyKey.UnmistakableIff | internal/service/batch_service.go:284-293 | for every batch of any URLs: no other batch has its text iff it is one URL, not empty, that cannot be cut at a separator into two parts in order |
| IdempotencyKey.JoinedCollides | internal/service/batch_service.go:290 | every batch has the text of the single URL that is its joined list |
| IdempotencyKey.CutCollides | internal/service/batch_service.go:290 | a URL that can be cut has the text of its two parts |
| IdempotencyKey.SeparatorConfuses | internal/service/batch_service.go:290 | two different batches with the same text, one with the separator inside a URL |
| IdempotencyKey.TextOfTwo | internal/service/batch_service.go:284-293 | the text for two URLs in either order is the user's number, a colon, the lesser URL, a bar and the other |
| IdempotencyKey.ComputeIdempotencyKey | internal/service/batch_service.go:284-293 | the loop hashes that text |
| IdempotencyKey.SortSorts | internal/service/batch_service.go:289 | the sorted list is a byte-wise ordered permutation |
| Counters.CurrentNumber | internal/service/apikey_service.go:105-135 | in its own bucket a counter is alive and holds the number of calls so far |
| Counters.CountCallKeepsInv | internal/service/apikey_service.go:109-132 | an expiry set on the first call cannot fire inside the bucket, so counter and history go on agreeing |
| Counters.HitRenewedKeepsInv | internal/service/analytics_service.go:85-91 | an expiry renewed on each call keeps a bucket readable for as many buckets as it is long |
| Counters.KeysApart | internal/service/apikey_service.go:107 | different prefixes or buckets have different cache keys, whatever the prefix holds |
| Analytics.RecordedInFigures | internal/service/analytics_service.go:85-91 | the counter rt:link:minute goes up by one and expires 600 seconds from now |
| Analytics.DedupInFigures | internal/service/analytics_service.go:71-83 | unique iff nothing live is kept under dedup:link:address, which is then kept for the window, or for good |
| Analytics.RealtimeCounts | internal/service/analytics_service.go:85-106 | for every history and span: the sum is never above the number of calls in the last so many minutes, sixty seconds each, and equal to it iff every minute with calls has one less than 600 seconds ago |
| Analytics.TenMinutesRecent | internal/service/analytics_service.go:90 | for up to ten minutes that is always so |
| Analytics.CheckAnswersHistory | internal/service/analytics_service.go:71-83 | a check says unique iff no unique access of that link and address lies less than the window back |
| Analytics.UniqueIsOptimal | internal/service/analytics_service.go:71-83 | the unique accesses are a window apart, and no choice of accesses that is so is larger |
| Analytics.OnlyFirstUnique | internal/service/analytics_service.go:80-81 | with a window of zero or less exactly the first access is unique |
| Analytics.UniqueIsLargestIff | internal/service/analytics_service.go:71-83 | the unique accesses are a largest choice a window apart iff the window is positive or there is at most one access |
| Analytics.Service.CheckDedup | internal/service/analytics_service.go:71-83 | answer and cache are those of the specification; a store that cannot be reached makes every access unique |
| Analytics.Service.RecordRealtime | internal/service/analytics_service.go:85-91 | counts up the current bucket and renews its expiry |
| Analytics.Service.GetRealtime | internal/service/analytics_service.go:93-106 | the loop returns the number of recorded calls whose time/60 is one of the last minutes, up to ten of them, and for longer spans iff every minute with calls is recent; never more |
| ApiKeys.LimitHolds | internal/service/apikey_service.go:105-135 | when calls are allowed by their ordinal under a prefix, no key is allowed more than its limit in a bucket |
| ApiKeys.TwiceInAnyInterval | internal/service/apikey_service.go:105-118 | hence at most twice the limit in any interval as long as a bucket |
| ApiKeys.NextMidnight | internal/service/apikey_service.go:130-131 | the expiry of the quota is the next multiple of 86400 seconds, and at least a second away |
| ApiKeys.RateInFigures | internal/service/apikey_service.go:105-118 | a call passes iff fewer than the rate are counted under rl:apikey:prefix:minute; it is counted, and the first lets the counter expire 60 seconds later |
| ApiKeys.QuotaInFigures | internal/service/apikey_service.go:120-135 | the same for the quota under quota:apikey:prefix:date, with the expiry at the end of the day of 86400 seconds |
| ApiKeys.Service.CheckRateLimit | internal/service/apikey_service.go:105-118 | answer and cache are those of `ApiKeys.RateInFigures`; an error of the store lets the call pass |
| ApiKeys.Service.CheckQuota | internal/service/apikey_service.go:120-135 | answer and cache are those of `ApiKeys.QuotaInFigures`; an error of the store lets the call pass |
| ApiKeys.Service.GetUsage | internal/service/apikey_service.go:160-189 | used is the number of quota checks under the prefix today, remaining the quota less that; a missing or foreign key is an error |
| CounterRuns.EventKeepsInv | internal/service/apikey_service.go:105-135 | all counters share one cache: no call of one kind disturbs the counters of another |
| CounterRuns.RealtimeExact | internal/service/analytics_service.go:85-106 | over every run of all these calls and any passing of time, the realtime sum is the number of calls in those minutes of sixty seconds iff the minutes with calls are recent, and always up to ten minutes |
| CounterRuns.DedupOptimal | internal/service/analytics_service.go:71-83 | over every run, the unique accesses are a largest choice a window apart iff the window is positive or there is at most one access |
| CounterRuns.RateBounded | internal/service/apikey_service.go:105-118 | over every run, for each key: at most the rate from any multiple of 60 seconds to the next, and at most twice the rate in any 60 seconds |
| CounterRuns.EveryCallInTurn | internal/service/apikey_service.go:105-135 | over every run, exactly which calls pass: those with fewer than rate (quota) calls under their prefix before them in the same 60 (86400) seconds of the clock |
| CounterRuns.TwiceIsReached | internal/service/apikey_service.go:105-118 | for every key, calls to the service at its rate around the turn of a minute are all allowed: twice the rate within sixty seconds |
| CounterRuns.QuotaBounded | internal/service/apikey_service.go:120-135 | over every run, at most the quota in any day of 86400 seconds, and the counter is the number of checks that day |
| Text.DecimalReadsBack | internal/service/analytics_service.go:100-102 | the number that a counter's text stands for is the number written |
| Text.DecimalInFigures | internal/service/analytics_service.go:88 | numerals are decimal, written digit by digit |

## Left out

- Reed-Solomon codewords and version information: the source writes none, so its symbols are not those of ISO/IEC 18004.
- `GenerateSVG` and PNG encoding: float formatting and a library.
- The timeout of the log shutdown, and a kill of the process: entries may be lost there by design.
- Enrichment of log entries at the flush (user agent, bot, country): tables and libraries; an entry's own fields are kept.
- The branch for a closed log channel: nothing closes that channel.
- Database failures other than a failed batch write and a refused insert, and a cache that fails under the link service. The counter methods do model a store that cannot be reached during a call; the runs over histories are for a store that can.
- Races between single cache and database calls inside one service call, but for a code that is taken between its check and its insert.
- Submitting after the shutdown of the batch service: a send on a closed queue, which the order of shutdown excludes.
- `processJob` on a job row that cannot be found or parsed: rows are never deleted, and the links are stored as written.
- CSV input, JSON and the listing calls of jobs and links.
- Submission by key in the step system: a submitter there may bring any key, which covers the computed one.
- AccessLogService.Service.DrainAndReturn: runs with no other worker or caller in between; interleaved draining is the subject of `AccessLog.DrainedCompletely`.
- BatchService.EmptiedEndsAll: has one worker; any number of workers, interleaved, is the subject of `BatchRuns.EveryJobEnds`.
- BatchService.Service.Shutdown: has one worker, as the object has.
- Realtime buckets before time zero: they are never written, and the model's loop does not read them.
- Fractions of a second in the expiry of the daily quota, and servers outside UTC.
- Validation and revocation of API keys, the limiter per IP address, random codes and login: lookups, randomness and cryptography.
- The audit service: the same worker loop without retry or fallback.
- HTTP handlers, pages and analytics queries.
