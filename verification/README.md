# A verified model of a video platform's core

This project models the parts of the platform that are hard to get right by inspection, and proves
what they are relied on for. `dafny verify dfyconfig.toml` checks all of it with Dafny 4.11.

| area | modules |
|---|---|
| transcode job protocol | `JobTable`, `TranscodeProtocol`, `Ownership`, `JobHistory`, `Termination`, `Publication`, `Playlists`, `Deletion`, `PublicationRuns` |
| FFmpeg's stderr | `LineScanner`, `FfmpegProgress` |
| rate limiter | `RateLimiter` |
| signed HLS manifests and paths | `MediaSigner`, `SignedManifest`, `Uri`, `SignedPlayback`, `StreamUrl`, `MasterPlaylist` |
| migration runner | `Migration` |
| browser client | `TokenRefresh`, `Settings`, `Menu` |
| shared helpers | `Text` (string functions of the Go library), `Wrappers` |

**The job protocol** is a state machine: a job table, a video table, any number of workers, each with
a program counter, and any number of Upload and Retranscode calls. One action is one SQL statement
(or one FFmpeg run) of one participant, and a run is any sequence of enabled actions, so every
interleaving is covered. A statement may take effect, be refused, or take effect with its answer lost.
Runs start from any consistent tables, also ones with `processing` rows that a crash left behind.
`maxAttempts` is a parameter of at least 1 per job. The repository classes in `JobTable` perform the
same statements in place. Building a master playlist takes several steps: the query for the jobs, one
preset lookup for each of them, the write of the file and the write of its path.

**Code that updates variables** is a class or a method with loops (`JobRepository`, `VideoRepository`,
`Scanner`, `ScanCRLF`, `ParseProgress`, `DrainStderr`, `Limiter`, `ServeSignedManifest`,
`StreamURL`, `GenerateMasterPlaylist`, `Migrate`, `Client`, `Provider`), each proved against a function about which
the theorems are stated.

## What the code does otherwise than its documentation says

Where code and documentation disagree the model follows the code. The lemmas named say exactly when
the code does what it is meant to do, and show a run or an input on which it does not.

- Upload and Retranscode create jobs and write `processing` in separate statements. A worker that is
  fast enough has its `ready` overwritten and the video stays unpublished (`SlowUploadStrands`,
  `StrandedForever`); a Retranscode between a worker's check and its write leaves a stale `ready`
  (`LateRetranscodeIsHidden`). `PromiseKeptIff`, `WriteSoundIff` and `SoundKeptIff` are the exact
  conditions.
- Retranscode with presets that are all unknown creates no job but writes `processing`, which strands a
  published video (`RetranscodeOfNothingStrands`).
- A preset lookup that fails while the master playlist is built leaves a completed job out of it for
  good, and a failed write of the file is ignored (`FailedLookupHidesJob`, `FailedPutLeavesNoFile`;
  exactly when: `PlaylistIsExactIff`, `PathLeadsToFileIff`, `LostPathStaysIff`).
- `UpdateStatus` does not look at `deleted_at`, so a worker's `ready` or a call's `processing` can
  replace the status `deleted` (`DeletedShowsReady`; exactly when: `ShowsDeletedIff`). The theorems on
  publication therefore speak of a video that is `ready` or deleted.
- The rate limiter is described as a sliding window. It bounds every window (`LimiterBound`), but it
  also refuses requests whose window is not full (`RefusedBelowTheLimit`; exactly when:
  `RefusalIsJustifiedIff`), and after a refusal it takes a pause longer than the window to be let through
  again, however slowly the client asks (`NextAcceptedFollowsPause`).
- Migrations 00011 and 00012 carry `+migrate` markers, which the runner does not know, so their Down
  sections run (`SeedFileRunsBoth`; exactly when: `OtherDownRunsIff`; for every marker text:
  `MarkerRunsIff`). A file whose first Down marker precedes its first Up marker stops the server
  (`DownFirstCrashes`; exactly when: `CrashIff`).
- `parseBitrate` drops every unit: `5M` is advertised as 5000 bits per second (`FiveMegabits`; right
  exactly for kilobits and 0: `BitrateIsRightIff`).
- Two presets with a resolution of the same height write to the same directory
  (`RenditionsCollideIff`).
- The embed handler looks for files in a directory that no transcoding ever writes (`EmbedPathMisses`).
- A manifest entry with a leading slash, `://`, a dot segment, a query, a fragment or a percent sign, and
  a line with white space around its entry, gets a signature that does not fit the request a player makes
  for it (`EscapedSpaceMisses`; exactly when: `SignedPathIff`, `SignedLineIff`, `LineFitsIff`,
  `OtherUrisFail`).
- The security documentation says that every playlist and segment request is checked when a preset asks
  for signed URLs. The server checks only if its lookup of the preset succeeds, and that names a table
  `presets`, which no migration creates (they create `encoding_presets`); without it no signature
  is checked and no manifest rewritten (exactly when something is checked: `UnsignedIsRefusedIff`).
- Where the lookup works, it takes the preset of any completed job, while the stream URL is signed
  according to the preset of the first. For a video whose presets differ the URL can be refused
  (`MixedPresetsRefuse`; exactly when it is not: `StreamUrlPlaysIff`).
- A setting that localStorage does not take is lost on reload (`UnstoredIsLost`; exactly when:
  `ReloadAgreesIff`), and for stored paths of which one is a prefix of another it depends on the order of
  the keys whether the mount throws (`OrderMatters`, `OrderIsIrrelevantIff`).

Two more differences have no lemma. The documentation calls the folders `720p/` and the master playlist
`master.m3u8`; the code uses `720/` and `playlist.m3u8`, and so does the model. The branch of `scanCRLF`
that trims a CR before an LF is never taken; `ScanCRLF` keeps it and is proved equal to a splitter
without it.

## Model

| member | source | states |
|---|---|---|
| JobTable.ExistsIsRedundant | internal/repository/job_repo.go:104-111 | the completeness query is true exactly when no job of the video is open, its EXISTS conjunct never decides, and a video without jobs counts as complete |
| JobTable.JobRepository.Create | internal/repository/job_repo.go:22-28 | the new row is claimable and unattempted, its video counts as incomplete from then on, and all other rows are what they were |
| JobTable.JobRepository.ClaimPending | internal/repository/job_repo.go:31-50 | returns nothing exactly when no unlocked pending row exists, and then changes nothing; otherwise an oldest pending row that nobody holds locked, which alone changes and has one more attempt |
| JobTable.JobRepository.UpdateProgressOf | internal/repository/job_repo.go:52-56 | only the progress of this row can change, and it stays as it was when the column's CHECK forbids the value |
| JobTable.JobRepository.CompleteJob | internal/repository/job_repo.go:58-64 | whatever its status was, the row is completed at 100 with an output, keeps its attempts and its video, and no other row changes |
| JobTable.JobRepository.FailJob | internal/repository/job_repo.go:66-75 | only the status of this row changes: pending exactly while attempts are left, failed otherwise |
| JobTable.JobRepository.AllCompleteForVideo | internal/repository/job_repo.go:104-111 | the count query answers whether every job of the video is completed or cancelled |
| JobTable.VideoRepository.Create | internal/repository/video_repo.go:23-31 | the new video is visible, `uploaded` and without playlist, and all others are what they were |
| JobTable.VideoRepository.SetStatus | internal/repository/video_repo.go:125-129 | the status of this video is overwritten even when it is deleted, nothing else of it and no other video |
| JobTable.VideoRepository.Remove | internal/repository/video_repo.go:155-159 | the video is hidden from then on, a second call changes nothing, and no other video changes |
| JobTable.VideoRepository.SetPlaylist | internal/repository/video_repo.go:131-135 | only the playlist column of this video changes |
| Ownership.RowChange | internal/repository/job_repo.go:31-75 | in any reachable state a row changes only when a worker claims it while pending, or by the worker that holds it |
| Ownership.FinishedRowIsFrozen | internal/repository/job_repo.go:52-75 | no action of anyone changes a completed, failed or cancelled row although the updates have no status guard |
| Ownership.ScaledProgressIsPercentage | internal/transcoder/worker.go:152-157 | for every resolution index and every percentage FFmpeg reports, the value written stays within 0 and 100 |
| Ownership.ScaledProgressIs | internal/transcoder/worker.go:152-157 | times the number of resolutions, the value written is the number of resolutions done plus FFmpeg's percentage; with one resolution it is that percentage, and it grows with it |
| Ownership.InvStep | internal/transcoder/worker.go:72-222 | every step of every participant, failures and lost answers included, keeps ownership, retry bookkeeping, worker knowledge and stored playlists consistent |
| Ownership.InvRun | internal/transcoder/worker.go:72-222 | so does every run |
| Ownership.ExclusiveOwnership | internal/transcoder/worker.go:83-99 | in every reachable state a held job is `processing` and has one holder only |
| Ownership.FinishedForever | internal/repository/job_repo.go:58-75 | completed, failed and cancelled are absorbing over every run, and the whole row is frozen |
| JobHistory.FailureLeadsToFailing | internal/transcoder/worker.go:108-177 | after a failed lookup of the video or preset the worker has only Fail left to send for the same job, and so after a failed rendering |
| JobHistory.StatusChange | internal/repository/job_repo.go:31-75 | in any reachable state, exactly how each action changes the status of each row |
| JobHistory.CompletedMeansRendered | internal/transcoder/worker.go:103-189 | in every run a job becomes completed only by the Complete of its holder, and only after that worker, since its claim, has found video and preset and rendered every one of the n resolutions without a failure |
| JobHistory.FailedMeansFailure | internal/transcoder/worker.go:108-177 | in every run a job leaves processing for pending or failed only by the Fail of its holder, right after a failure, and goes back to pending exactly while attempts are left |
| JobHistory.ReportIsWritten | internal/transcoder/worker.go:153-157 | a progress report that gets through is what the holder's row then shows |
| JobHistory.CallCreatesItsJobs | internal/service/video_service.go:75-85 | in every run a call has created one job for each of its first presets, in order and for its video, and the rest are still to come; at its end for each of them |
| JobHistory.CallBegins | internal/service/video_service.go:70-85 | an upload without presets writes no `processing` |
| Ownership.RetryBound | internal/repository/job_repo.go:32-75 | in every reachable state attempts never exceed the maximum, pending means attempts are left, failed means they are used up, completed means progress 100 |
| Ownership.PlaylistListsCompletedJobs | internal/transcoder/worker.go:224-272 | a stored master playlist lists completed jobs of its own video only, in every interleaving and whatever lookups fail |
| Termination.AttemptsCountClaims | internal/repository/job_repo.go:32-40 | over every run the attempts recorded in the table grow by exactly the number of claims |
| Termination.ClaimsAreBounded | internal/repository/job_repo.go:66-75 | over every run there are at most as many claims as the retry maxima of all jobs add up to |
| Termination.WorkIsNearer | internal/transcoder/worker.go:72-272 | every working step lowers a lexicographic measure of unspent attempts, remaining stages, and remaining resolutions or lookups |
| Termination.WorkIsFinite | internal/transcoder/worker.go:76-100 | in every infinite schedule in which no more jobs are created, with any polls, progress reports and service calls in between, there is a point after which no worker does any work |
| Termination.WorkersComeToRest | internal/transcoder/worker.go:76-100 | so no schedule consists of working steps alone from some point on, whatever else it does before |
| Publication.PromiseKeptIff | internal/transcoder/worker.go:186-205 | for every state and action: "a finished video is published or about to be" survives if and only if the action is not one of four named losses |
| Publication.QuiescenceImpliesPublished | internal/transcoder/worker.go:202-205 | with atomic job creation and truthful answers, in every interleaving a video whose jobs are all done and that no worker is about to publish is ready (or deleted) |
| Termination.RestIff | internal/transcoder/worker.go:83-99 | no worker has work if and only if all workers are idle and, where there is a worker, no job is pending |
| Termination.RestMeansPublished | internal/transcoder/worker.go:202-205 | when the workers have nothing left to do, under the same hypotheses, an uploaded video with jobs is ready (or deleted), or one of its jobs has failed for good or was left `processing` |
| Publication.WriteSoundIff | internal/transcoder/worker.go:203-205 | a coming `ready` write stops being justified if and only if a job is created for the video between a worker's check and its write |
| Publication.SoundKeptIff | internal/transcoder/worker.go:202-271 | over all actions, failures included, this survives if and only if no job is created for a settled video: all its jobs are done, and its playlist, stored or being built, accounts for every completed job as listed, missed or still to be looked up |
| Publication.ReadyIsSound | internal/transcoder/worker.go:202-207 | over every run without late jobs a video showing `ready` has all its jobs done |
| Publication.AtomicUploadIsSound | internal/service/video_service.go:75-85 | when a call creates its jobs with nothing in between and the video is not transcoded again, every run from the start has that soundness, whatever statements fail; a failed preset lookup shows as a missed job |
| Publication.FailedJobBlocksReady | internal/repository/job_repo.go:66-75 | once a job has failed while the video is not ready and no worker is past its check, no run ever writes `ready` |
| Publication.StrandedForever | internal/service/video_service.go:209-219 | a finished video that lost its publication never gets it back without a new job |
| Publication.RetranscodeOfNothingStrands | internal/service/video_service.go:198-219 | from every state with a finished, undeleted and idle video, a Retranscode of unknown presets strands it |
| Playlists.NoCompletedJobIsSkipped | internal/transcoder/worker.go:239-242 | in every reachable state each completed job has an output path, so the test for a missing one never skips any |
| Playlists.PlaylistIsExactIff | internal/transcoder/worker.go:239-271 | over every run without late jobs a stored playlist lists exactly the completed jobs if and only if no preset lookup failed while it was built |
| Playlists.PlaylistIsExact | internal/transcoder/worker.go:243-246 | from the upload on, with atomic job creation and no failed lookup, a stored playlist lists exactly the completed jobs, whatever else fails |
| Playlists.PathLeadsToFileIff | internal/transcoder/worker.go:269-271 | over all actions the stored path comes to lead nowhere if and only if the first write of a playlist file for the video fails |
| Playlists.LostPathStaysIff | internal/transcoder/worker.go:269-271 | over every run such a path leads nowhere at the end if and only if no later write of the file succeeded |
| Deletion.ShowsDeletedIff | internal/repository/video_repo.go:125-159 | over every run a deleted video stays hidden, and it still shows `deleted` at the end if and only if it did at the start and no worker or call wrote its status in between |
| Deletion.DoomedForever | internal/transcoder/worker.go:108-112 | over every run a job of a deleted video is never completed unless a worker had found the video before |
| PublicationRuns.TwoWorkersPublish | internal/transcoder/worker.go:203-205 | publication is at least once: a run in which two workers both pass the check |
| PublicationRuns.SlowUploadStrands | internal/service/video_service.go:75-85 | a run in which the upload's late `processing` overwrites `ready` and strands the video |
| PublicationRuns.LateRetranscodeIsHidden | internal/service/video_service.go:209-219 | a run that ends with `ready` shown while a job of the video is pending and the call is over |
| PublicationRuns.FailedLookupHidesJob | internal/transcoder/worker.go:243-246 | a run that ends with a ready video whose stored playlist lacks its completed job |
| PublicationRuns.FailedPutLeavesNoFile | internal/transcoder/worker.go:270-271 | a run that ends with a ready video whose row names a playlist that does not exist |
| PublicationRuns.DeletedShowsReady | internal/repository/video_repo.go:125-129 | a run that ends with a deleted video of status `ready` |
| LineScanner.PiecesSplit | internal/transcoder/progress.go:14-47 | every stream is decomposed into lines without CR or LF which, joined with their separators, give the stream back |
| LineScanner.SplitIsUnique | internal/transcoder/progress.go:14-47 | there is no other decomposition at CRLF, lone CR and LF |
| LineScanner.ScanCRLF | internal/transcoder/progress.go:15-47 | the index loop finds the first complete line, and asks for more data when there is none or a CR ends the buffer |
| LineScanner.LineIsFinal | internal/transcoder/progress.go:19-42 | a line returned from a partial buffer, and its advance, stay the same whatever data follow |
| LineScanner.NextLine | internal/transcoder/progress.go:15-47 | what is found in a buffer is the next line of the whole stream, and nothing is lost |
| LineScanner.Scanner.Scan | internal/transcoder/progress.go:55-59 | however the stream is cut into reads, the calls deliver its reference lines one by one and stop after the last |
| FfmpegProgress.PrintedTimeIsFound | internal/transcoder/progress.go:12-66 | a time printed anywhere in a line, with no match before it, is read back digit for digit |
| FfmpegProgress.PercentInRange | internal/transcoder/progress.go:67-77 | up to the end of the video the reported value times the duration is a hundred times the time printed, from then on it is 100, and it is a percentage always |
| FfmpegProgress.SecondsAre | internal/transcoder/progress.go:67-73 | a printed time is its whole seconds plus the fraction that exactly its last digits denote |
| FfmpegProgress.PercentGrows | internal/transcoder/progress.go:74-77 | before the end a later time is a strictly greater percentage |
| FfmpegProgress.OneTimeIsReported | internal/transcoder/progress.go:58-81 | a stream of one line that prints a time, however it ends, reports that time's percentage and nothing else |
| FfmpegProgress.TailIsEnd | internal/transcoder/progress.go:95-108 | the tail is the last 30 of the non-blank lines, or all of them if there are fewer |
| FfmpegProgress.FiltersOfOne | internal/transcoder/progress.go:58-87 | a line counts as blank exactly if it is white space, and as progress exactly if it contains `time=` |
| FfmpegProgress.ReportsInRange | internal/transcoder/progress.go:58-81 | for any lines every value handed to the callback lies within 0 and 100 |
| FfmpegProgress.DrainStderr | internal/transcoder/progress.go:94-111 | for every stream and every cut into reads the result is the last 30 non-blank lines, trimmed and in order |
| FfmpegProgress.ParseProgress | internal/transcoder/progress.go:51-90 | returns the same tail of the lines without `time=`, and reports one percentage for each line with a time |
| RateLimiter.StateIsHistory | internal/middleware/ratelimit.go:55-88 | the stored count and last-seen time always equal the streak read off the IP's full request history, or nothing is stored and the history is stale |
| RateLimiter.DecisionIsHistory | internal/middleware/ratelimit.go:55-74 | every decision in every run is the one read off the IP's own history |
| RateLimiter.EvictionIsUnobservable | internal/middleware/ratelimit.go:77-88 | at every point of every run a limiter without cleanup decides the same |
| RateLimiter.IpsAreIndependent | internal/middleware/ratelimit.go:55-73 | dropping all other clients and all evictions from a run changes no decision for this IP |
| RateLimiter.SlidingWindowBound | internal/middleware/ratelimit.go:55-73 | in every closed interval as long as the window at most the largest limit in force is accepted |
| RateLimiter.LimiterBound | internal/middleware/ratelimit.go:55-88 | the same over whole runs with other clients, limit changes and evictions |
| RateLimiter.RefusalIsJustifiedIff | internal/middleware/ratelimit.go:16-73 | for every history under a constant limit, the window before a refused request holds `limit` accepted ones if and only if the streak of the request began within that window |
| RateLimiter.NextAcceptedFollowsPause | internal/middleware/ratelimit.go:57-71 | after a refusal, as long as the limit is not raised, the next accepted request is the next one after a pause longer than the window |
| RateLimiter.SteadyClientIsLockedOut | internal/middleware/ratelimit.go:64-71 | under any sequence of limits, a client that never pauses is let through, its first request aside, exactly while the number of all its requests is within the limit in force |
| RateLimiter.RefusedBelowTheLimit | internal/middleware/ratelimit.go:16-16 | a refused request whose window holds fewer accepted requests than the limit |
| RateLimiter.EvictionsKeep | internal/middleware/ratelimit.go:81-85 | a sequence of evictions removes the stale visitors it names and leaves every other entry |
| RateLimiter.Limiter.ChangeLimit | internal/middleware/ratelimit.go:35-39 | performs the limit change of the reference run |
| RateLimiter.Limiter.Handle | internal/middleware/ratelimit.go:55-73 | decides and updates as the reference run does |
| RateLimiter.Limiter.Sweep | internal/middleware/ratelimit.go:81-85 | in whatever order the map is walked, exactly the stale entries go |
| MediaSigner.MessageIsInjective | internal/service/media_signing.go:44-48 | the signed text determines path and expiry, also for paths with colons |
| MediaSigner.VerifyIff | internal/service/media_signing.go:29-42 | a signature verifies for its own path and expiry until then and, short of a MAC collision, for nothing else |
| SignedManifest.ServeSignedManifest | internal/handler/media.go:144-172 | one output line for each input line, in order; blank lines and tags other than EXT-X-KEY unchanged; erasing signatures gives the input back |
| SignedManifest.RewritingIsErased | internal/handler/media.go:151-195 | for every line, erasing the last signature from the rewritten line recovers it exactly |
| SignedManifest.BoundsStay | internal/handler/media.go:175-195 | replacing the URI of a key line keeps the line a key line with its URI at the same start |
| SignedManifest.KeyLineIsRewritten | internal/handler/media.go:150-195 | of a key line exactly the first quoted URI is signed, and all around it is kept |
| SignedPlayback.QueryIsRead | internal/handler/media.go:81-83 | the server decodes from a signed query exactly the signature and expiry that were written |
| SignedPlayback.ServeIff | internal/handler/media.go:69-95 | for every path, query and time: with signing enforced a path without two dots in a row is granted if and only if the query has a signature and an unexpired expiry and the signature is the MAC of that path with that expiry |
| SignedPlayback.OtherSignatureIsRefused | internal/handler/media.go:81-88 | a signature made for another path or expiry is refused, short of a MAC collision |
| SignedPlayback.QueryIsAppended | internal/handler/media.go:162-166 | a reference with a query keeps it, and the signature becomes its last part |
| SignedPlayback.PlainIsFollowed | internal/handler/media.go:199-204 | resolved per section 5.2.3 of RFC 3986, a plain reference (no scheme, leading slash, dot segment, query, fragment or percent sign) leads to the very path that was signed |
| SignedPlayback.SignedPathIff | internal/handler/media.go:174-204 | for every reference, a player that follows it makes the server check the signed path if and only if the reference is plain, percent-decoding included |
| SignedPlayback.SignedLineIff | internal/handler/media.go:159-167 | for every line, followed as it stands and signed as trimmed, the same holds if and only if the trimmed line is plain and the line is trimmed already |
| SignedPlayback.EscapedSpaceMisses | internal/handler/media.go:159-167 | in every manifest, a file name with an escaped space leads the player to a path that was not signed |
| SignedPlayback.LineFitsIff | internal/handler/media.go:69-89 | for every URI line as it is rewritten, short of a MAC collision: its signature fits the player's request if and only if the trimmed line is plain, the line is trimmed already and it has not expired |
| SignedPlayback.SignedUriVerifies | internal/handler/media.go:69-89 | every plain reference is granted until its expiry and refused after it, except paths with two dots in a row |
| SignedPlayback.SegmentLinePlays | internal/handler/media.go:159-167 | the same for a rewritten segment or variant line |
| SignedPlayback.KeyLinePlays | internal/handler/media.go:175-195 | the same for the key file that a rewritten key line names |
| SignedPlayback.OtherUrisFail | internal/handler/media.go:69-89 | for every reference signed as it is written, such as a key's, short of a MAC collision: its signature fits if and only if it is plain and has not expired |
| StreamUrl.StreamURL | internal/service/video_service.go:229-262 | the URL is signed exactly if there is a signer and a playlist and the first completed job whose preset is found insists on it; otherwise it is the stored path, or empty without one |
| StreamUrl.UrlLastsAsConfigured | internal/service/video_service.go:252-257 | a signed URL is granted exactly for the time the preset configures, or for an hour where it configures none |
| StreamUrl.DecidingIsFirst | internal/service/video_service.go:244-260 | the preset that decides is the one of the first completed job whose preset is found, and there is none only if no such job exists |
| StreamUrl.StreamPathIff | internal/service/video_service.go:257-257 | for every stored path the server reads the signed path from the URL if and only if it has no question mark, hash or percent sign |
| StreamUrl.StreamUrlPlaysIff | internal/handler/media.go:47-89 | for all jobs and presets, the URL handed out is granted whichever preset the server's unordered lookup picks, if and only if the lookup fails, or no completed job's preset insists on signing, or the deciding preset does and the URL has not expired |
| StreamUrl.UniformPresetsPlay | internal/service/video_service.go:239-262 | where the presets of all completed jobs agree on signing, the URL works until it expires whatever the lookup picks |
| StreamUrl.MixedPresetsRefuse | internal/handler/media.go:54-58 | two completed jobs with different presets for which the URL handed out is refused at once |
| StreamUrl.UnsignedIsRefusedIff | internal/handler/media.go:54-89 | an unsigned request can be refused if and only if the lookup works and a completed job's preset insists on signing |
| MasterPlaylist.CollectVariants | internal/transcoder/worker.go:239-261 | collects the variants of the completed jobs with an output whose preset is found, in the order of the jobs |
| MasterPlaylist.PresetVariants | internal/transcoder/worker.go:247-260 | one variant for each resolution of the preset with its width and height, or one from its legacy columns, all with the preset's bit rate |
| MasterPlaylist.GenerateMasterPlaylist | internal/transcoder/worker.go:224-272 | parsing the printed playlist gives back exactly those variants |
| MasterPlaylist.PlaylistIsParsed | internal/transcoder/worker.go:263-267 | print and parse is the identity on every list of variants |
| MasterPlaylist.OneVariantEach | internal/transcoder/worker.go:239-261 | there is one variant for each resolution of each completed job that has an output and whose preset is found, and no other |
| MasterPlaylist.BitrateIsKilobits | internal/transcoder/worker.go:274-280 | a number with any unit or none is advertised as that many thousands |
| MasterPlaylist.BitrateIsRightIff | internal/transcoder/worker.go:274-280 | for a rate in bits, kilobits, megabits or gigabits, the advertised bandwidth is the one meant if and only if the unit is kilobits or the rate is 0 |
| MasterPlaylist.VideoIdIsRecovered | internal/handler/media.go:37-37 | the server's pattern recovers the video ID from every path below the video's directory |
| MasterPlaylist.VideoIdIff | internal/handler/media.go:37-37 | the exact shape of the paths from which the pattern takes a given ID |
| MasterPlaylist.EmbedPathMisses | internal/handler/embed.go:268-268 | no path the embed handler builds lies in the directory of any video |
| MasterPlaylist.VariantLeadsToRendition | internal/transcoder/ffmpeg.go:107-109 | a variant URI resolved against the playlist's own URL is the media playlist in the directory Transcode wrote |
| MasterPlaylist.VariantIsOfItsResolution | internal/transcoder/worker.go:253-266 | each variant names its own resolution and bit rate and leads to the directory of its height |
| MasterPlaylist.SignedVariantPlays | internal/handler/media.go:159-167 | a signed variant line leads the player to that playlist until expiry, and to the right video |
| MasterPlaylist.RenditionsCollideIff | internal/transcoder/ffmpeg.go:107-109 | two renditions of a video share a file if and only if their heights are equal |
| Migration.CrashIff | internal/database/migrate.go:109-122 | extraction crashes if and only if the first Down marker precedes the first Up marker |
| Migration.DownFirstCrashes | internal/database/migrate.go:109-122 | a Down marker on the first line and an Up marker on the second stop the server, whatever follows |
| Migration.UpSectionOnly | internal/database/migrate.go:117-121 | from a well-formed file exactly the trimmed Up section is taken |
| Migration.MarkerRunsIff | internal/database/migrate.go:109-122 | for every marker text of any tool: what is executed contains it if and only if it occurs after the first Up marker and before the first Down marker, or anywhere in a file without an Up marker |
| Migration.DownRunsIff | internal/database/migrate.go:109-122 | what is executed contains a Down marker if and only if the file has one and no Up marker |
| Migration.OtherDownRunsIff | internal/database/migrate.go:109-122 | the other tool's Down marker, which 00011 and 00012 carry, is executed in every file without an Up marker, and in one with it exactly when it comes before the runner's own Down marker |
| Migration.SeedFileRunsBoth | internal/database/migrations/00011_default_branding.sql:1-13 | every file shaped like 00011, with sections free of the letter s, is executed as a whole |
| Migration.RunExtends | internal/database/migrate.go:64-105 | a run, wherever it fails, extends a prefix of the eligible migrations to a longer one, and to all of them if nothing fails |
| Migration.RunIs | internal/database/migrate.go:64-105 | from any log, a run stops at the first file that crashes or does not commit and has applied exactly what came before, and that file only if its commit went through unseen |
| Migration.RunSucceedsIff | internal/database/migrate.go:64-105 | from any log, a run succeeds if and only if no file it has to look at crashes and every file it attempts commits |
| Migration.RunKeepsPrefix | internal/database/migrate.go:43-105 | started from a prefix, a run ends with one, and with all migrations whenever it succeeds |
| Migration.LogIsAPrefix | internal/database/migrate.go:43-105 | over any number of failing runs and growing releases the log is a prefix of the sorted eligible migrations, each at most once |
| Migration.CleanStartCompletes | internal/database/migrate.go:64-105 | after any history a run without failures commits the rest, and a further run changes nothing |
| Migration.Migrate | internal/database/migrate.go:64-105 | succeeds exactly if nothing goes wrong with any file it has to look at; never shortens or reorders the log, and on success leaves all migrations applied |
| TokenRefresh.SingleFlight | web/lib/api-client.ts:30-90 | in every reachable state at most one refresh POST is in flight, and flag and promise agree with it |
| TokenRefresh.FallbackNeverFires | web/lib/api-client.ts:92-92 | in every reachable state an expired call waits for the shared promise, never for one of its own |
| TokenRefresh.ResumeAfterCleanup | web/lib/api-client.ts:86-92 | a waiter resumes only after the flags of its refresh have been cleared |
| TokenRefresh.WaitersAreServed | web/lib/api-client.ts:86-92 | no waiter is stuck: its refresh is under way, or an event that brings it on is enabled |
| TokenRefresh.AtMostTwoRequests | web/lib/api-client.ts:77-98 | a call sends its request at most twice, the second time with the token its own refresh brought |
| TokenRefresh.RefreshesAreBounded | web/lib/api-client.ts:84-90 | there are never more refreshes than calls, each has a starter of its own |
| TokenRefresh.TokensAreLostIff | web/lib/api-client.ts:92-106 | stored tokens are lost if and only if there is a logout, a refresh that brought no token is awaited to its end, or a retry is refused |
| TokenRefresh.StoreChange | web/lib/api-client.ts:33-106 | exactly how every event changes both tokens; the refresh token changes by login and by clearing only |
| TokenRefresh.WaitsIff | web/lib/api-client.ts:60-92 | a call is sent with the access token stored when it begins, and waits for a refresh if and only if it had one, is no refresh itself and is answered 401 |
| TokenRefresh.StartsIff | web/lib/api-client.ts:33-92 | an expired call joins the refresh under way, or starts one that is posted if and only if there is a refresh token |
| TokenRefresh.RefreshedTokenIsSent | web/lib/api-client.ts:43-71 | a refresh that brings a token stores it as the access token, and in every run until a login, a newer refresh or a clearing event it stays stored and every call that begins is sent with it |
| TokenRefresh.WaiterGetsAnswer | web/lib/api-client.ts:92-98 | whenever a waiter resumes, it retries with the token its refresh brought, or ends if it brought none |
| TokenRefresh.Client.Start | web/lib/api-client.ts:60-80 | takes the access token stored at that moment and sends one request |
| TokenRefresh.Client.OnFirstAnswer | web/lib/api-client.ts:82-92 | does to the module variables what the event does in the protocol |
| TokenRefresh.Client.OnRefreshAnswer | web/lib/api-client.ts:43-53 | stores the new token if there is one, and only that |
| TokenRefresh.Client.OnCleanup | web/lib/api-client.ts:86-89 | clears flag and promise and resolves the refresh for its waiters |
| TokenRefresh.Client.OnResume | web/lib/api-client.ts:93-105 | retries with the new token, or clears all tokens |
| TokenRefresh.Client.OnRetryAnswer | web/lib/api-client.ts:99-105 | ends the call, clearing the tokens exactly when the retry failed |
| Settings.SplitIsInjective | web/providers/settings-provider.tsx:38-38 | different dotted paths have different keys |
| Settings.Split | web/providers/settings-provider.tsx:38-38 | no key of a path contains a dot, and there is at least one |
| Settings.SetSucceedsIff | web/providers/settings-provider.tsx:37-43 | a write throws if and only if a primitive is in the way of the path, and is a plain update otherwise |
| Settings.GetAfterPut | web/providers/settings-provider.tsx:33-43 | what was written is read back, and every incomparable path reads as before |
| Settings.PutsCommute | web/providers/settings-provider.tsx:37-43 | writes to incomparable paths commute |
| Settings.PutTwice | web/providers/settings-provider.tsx:37-43 | a later write to the same path hides the earlier one |
| Settings.OrderMatters | web/providers/settings-provider.tsx:80-88 | for every pair of comparable paths, a primitive stored under the shorter makes the mount throw in one order of the keys and succeed in the other |
| Settings.OrderIsIrrelevant | web/providers/settings-provider.tsx:80-88 | prefix-free storage can be loaded in any order |
| Settings.OrderIsIrrelevantIff | web/providers/settings-provider.tsx:76-90 | for defaults with room, all orders of the keys of all storages on a set of paths mount alike if and only if no path is a prefix of another |
| Settings.ReloadAgrees | web/providers/settings-provider.tsx:76-109 | after mount and any writes on prefix-free paths that localStorage takes, a reload in any key order rebuilds the settings in memory, and nothing throws |
| Settings.ReloadAgreesIff | web/providers/settings-provider.tsx:45-109 | with writes that storeLeaf may swallow, the reload rebuilds memory if and only if every value last written is the one last stored or, where nothing is stored, the default |
| Settings.UnstoredIsLost | web/providers/settings-provider.tsx:45-55 | one write that localStorage does not take is lost on reload if and only if its value is not the default |
| Settings.Provider.OnMount | web/providers/settings-provider.tsx:76-90 | loads the storage as the reference does; a throw leaves settings and storage alone |
| Settings.Provider.OnStoreOption | web/providers/settings-provider.tsx:45-109 | throws exactly if a primitive is in the way and then changes nothing; otherwise memory has the value, and storage too exactly if localStorage takes it |
| Menu.SearchesAgree | web/hooks/use-menu.ts:23-87 | on every tree the three searches agree whether anything is active |
| Menu.ActiveItemIff | web/hooks/use-menu.ts:32-37 | a list has something active exactly if one of its items is active |
| Menu.BreadcrumbLeadsToFirstActive | web/hooks/use-menu.ts:58-87 | the breadcrumb is a parent-child chain to the first active node in preorder |
| Menu.CurrentIsBelowBreadcrumb | web/hooks/use-menu.ts:39-87 | the current item is the last breadcrumb node or the current item among its children |
| Menu.CurrentIsInSubtree | web/hooks/use-menu.ts:39-87 | a path of the tree starts with the breadcrumb and ends at the current item, so it lies in the subtree of the breadcrumb's last node |
| Menu.ActiveTestsAgree | web/hooks/use-menu.ts:90-104 | the test getChildren writes out itself is the one of hasActiveChild |
| Menu.NothingBelowTarget | web/hooks/use-menu.ts:119-126 | below the wanted level the search always returns null |
| Menu.GetChildrenIsFirstOffer | web/hooks/use-menu.ts:89-142 | getChildren returns what the leftmost node at the wanted depth with something to offer has, and null for a negative level |
| Menu.ChildrenAreActive | web/hooks/use-menu.ts:106-139 | whatever list is returned, the active page is in it or below it |
| Menu.ChildrenAreAList | web/hooks/use-menu.ts:106-139 | what is returned is one of the menu's own lists as a whole, the top one or the children of a node |

## Left out

- Termination.WorkIsFinite: does not count progress reports and polls as work, because FFmpeg's output and
  the polling are not bounded by anything in the code; job creation restarts the measure.
- Publication.QuiescenceImpliesPublished: speaks of videos uploaded during the run, because a table from before a
  crash may hold a video that was lost then.
- SignedPlayback.OtherUrisFail: assumes that the MAC does not collide on the two messages compared, because the MAC is
  an uninterpreted function.
- SignedPlayback.SignedPathIff: is stated for manifests whose own path has no percent sign, question mark,
  hash or dot segment, which holds of every path the transcoder builds. Characters that a player encodes
  by itself, such as spaces, are taken to reach the server as they were, since it decodes them again.
- Settings.OrderIsIrrelevantIff: speaks of defaults that leave room for the paths; where a primitive is in
  the way already, SetSucceedsIff says that the write throws.
- RateLimiter.RefusalIsJustifiedIff: is stated for a limit that stays the same, because with a changing one
  there is no single number for a window to be full.
- Settings.ReloadAgrees: is stated for paths of which none is a prefix of another, because the claim fails
  for the others (OrderIsIrrelevantIff).
- SQL text, row scanning, connection pools and transactions below one statement; the columns
  output_size, duration, worker_id, error_message and the timestamps but created_at. Of output_path only
  whether it is set.
- Reclaiming of `processing` jobs after a crash: the code has none, so only safety survives a crash. No
  code sets `cancelled`; rows may start with it.
- Webhooks, metrics, thumbnails, previews, banners and meta.json after publication.
- FFmpeg, ffprobe, temporary files and storage: a rendition succeeds or fails, and may report progress.
- The 64 KB limit of bufio.Scanner: every line is assumed to fit. A manifest is modelled as the sequence
  of its lines, a final newline or CR LF is not.
- Floating point: durations and percentages are reals, so the fractions with hundreds of digits on which
  floats overflow are not covered. 64-bit overflow of expiry times and of ParseInt is not modelled.
- White space beyond ASCII in strings.TrimSpace.
- filepath.Dir is modelled on paths without empty or dot segments.
- A playlist file that a failing write leaves truncated: a write takes place as a whole or not at all.
- StreamUrl.StreamUrlPlaysIff: leaves open whether the preset lookup of the media handler works, because the
  table it names is not in the repository's schema: with the migrations as they are it never succeeds, so
  no signature is checked and no manifest rewritten. The results on signed manifests hold where it does.
- Content types and caching headers of the media handler.
- net.SplitHostPort, response headers and the timer of the cleanup loop; evictions may come at any time.
- Two servers migrating at once, reading of the embedded files, and their sorting: the files come sorted.
- In the token refresh, a fetch and the reading of its body are one await; request headers and bodies.
- Settings are values: setToPath's assignment in place and its shallow copies, and through them aliasing
  with the previous state, are not captured; nor are arrays, properties of strings, prototype keys, and
  what a throwing write changed before it threw.
- Menu items carry no fields but title, path and children.
