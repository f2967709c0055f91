# vidl-api session download pipeline, in Dafny

This project models the download-session core of the vidl-api server without its I/O:

- how it picks a video or audio format from the formats the video offers;
- the session record and the progress rules that update it;
- the per-session folder that holds the record and the downloaded files;
- the order of steps, and the status codes 201 to 206, in the download handlers.

Every step whose outcome comes from outside is a parameter of the model. That covers:

- whether the URL validates;
- what the video information holds;
- whether a folder can be made, and whether a file reads or writes;
- the events a download stream and the media processor emit;
- whether the output file reaches the client.

The files follow the program's structure:

| file | module | source |
|---|---|---|
| text.dfy | `Text` | JavaScript's `${n}`, `split` and `includes` on strings |
| types.dfy | `Types` | the session record types of src/types/youtube-types.d.ts |
| formats.dfy | `Formats` | `getVideoFormats` and `getAudioFormats`: filter, first-seen dedupe, sort by bitrate |
| selector.dfy | `Selector` | `getVideoFormat_safe`, `getAudioFormat_safe`, `isVideoFormat` and their fallback tables |
| progress.dfy | `Progress` | `videoDurationInSeconds`, `getConvertingStateProgress`, `getFileSize`, and the stages of `updateSessionProgress` as a function on records |
| session_info.dfy | `Sessions` | the `SessionInfo` class: a field holding the record, getters as functions, setters as methods |
| store.dfy | `Store` | the session folders as a `map` in a `SessionStore` class; `createSessionFolder`, `saveInfoToJson`, `readSessionFile`, `updateSessionProgress`, file writes and removals |
| downloads.dfy | `Downloads` | `downloadFile`: a promise settled once over a sequence of stream events |
| handlers.dfy | `Handlers` | open, poll, the two validators, the cleaner, the video and audio download handlers, and the middleware order of the download routes |

Numbers:

- JavaScript numbers are exact integers here.
- Durations are whole hundredths of a second.
- `NaN` and `Infinity` percentages are `Percent.NonFinite`.
- `toFixed(2)` is the exact nearest hundredth, with ties going up. Sizes are divided by 1024, so the quotient is exact in binary.
- In `getFileSize`, `GB >>> 0` and `MB >>> 0` (the quotients of the size by 1024·1024 and by 1024) truncate the quotient and take it modulo 2^32.

Quirks the model keeps as written:

- The fallback searches match `${Q}` without a `p`, so "1440p" matches tier 144. The exact search matches `${quality}p`.
- The tier clause of `getVideoFormats` is always true. `Formats.TierClauseIsTautology` proves that it filters nothing.
- `safe_map.get(quality)!` on a quality outside the table throws. The handler's catch turns that into 205; here it is `Selection.UnknownTier`.

## Model

| member | source | states |
|---|---|---|
| Formats.TierClauseIsTautology | src/routes/youtube/ytHelpers.ts:19-28 | the 8k/4k/2k clause of the video filter is a tautology: the filter as written accepts exactly the video-only, non-manifest formats |
| Formats.KeptIndices | src/routes/youtube/ytHelpers.ts:16-39 | the positions `filterFormats` keeps with a `done_set` are exactly the matching positions whose key has not been seen at an earlier matching position, in increasing order |
| Formats.KeptPicksIndices | src/routes/youtube/ytHelpers.ts:18-39 | the filtered list is the input at the kept positions, in input order |
| Formats.FirstSeenRepresentative | src/routes/youtube/ytHelpers.ts:30-36 | every matching format has a first-seen format of the same key at or before it |
| Formats.KeptProperties | src/routes/youtube/ytHelpers.ts:13-40 | kept formats match and come from the input; no two kept formats share a key; every key of a matching input format is represented |
| Formats.SortPermutes | src/routes/youtube/ytHelpers.ts:72-75 | the bitrate sort is a permutation |
| Formats.InsertPermutes | src/routes/youtube/ytHelpers.ts:72-75 | inserting one format by bitrate adds exactly that format |
| Formats.InsertKeepsDescending | src/routes/youtube/ytHelpers.ts:72-75 | inserting into a descending list keeps it descending |
| Formats.InsertMembers | src/routes/youtube/ytHelpers.ts:72-75 | every element after an insertion is the new format or an old one |
| Formats.InsertKeepsStrict | src/routes/youtube/ytHelpers.ts:72-75 | inserting a new bitrate into a strictly descending list keeps it strictly descending |
| Formats.SortDescending | src/routes/youtube/ytHelpers.ts:72-75 | the sort yields descending bitrates |
| Formats.SortMembers | src/routes/youtube/ytHelpers.ts:72-75 | every sorted element comes from the unsorted list |
| Formats.SortStrictlyDescending | src/routes/youtube/ytHelpers.ts:72-75 | a list with distinct bitrates sorts strictly descending |
| Formats.AudioListOrdered | src/routes/youtube/ytHelpers.ts:56-76 | the audio list is a permutation of the deduplicated audio-only formats, all from the input, strictly descending by bitrate |
| Formats.AudioListCoversBitrates | src/routes/youtube/ytHelpers.ts:56-76 | every bitrate of an audio-only input format appears in the audio list, and none exceeds its head |
| Formats.BitrateInSorted | src/routes/youtube/ytHelpers.ts:60-75 | a position of the sorted list carries any given audio-only format's bitrate |
| Formats.GetVideoFormats | src/routes/youtube/ytHelpers.ts:13-40 | the loop with its `done_set` computes the first-seen filter: video-only, non-manifest, one format per label prefix, input order |
| Formats.GetAudioFormats | src/routes/youtube/ytHelpers.ts:56-76 | the audio-only, first-seen-per-bitrate formats, sorted strictly descending by bitrate; a permutation of the filter's output; the head has the highest bitrate on offer |
| Selector.IsVideoFormatIsTableKey | src/routes/youtube/ytHelpers.ts:229-233 | `isVideoFormat` accepts exactly the keys of the video fallback table |
| Selector.IsVideoFormat | src/routes/youtube/ytHelpers.ts:229-233 | `isVideoFormat` holds exactly for the nine video tiers |
| Selector.VideoFallback | src/routes/youtube/ytHelpers.ts:83-96 | the video `safe_map` has an entry exactly for the nine video tiers |
| Selector.AudioFallback | src/routes/youtube/ytHelpers.ts:154-162 | the audio `safe_map` has an entry exactly for the four audio bitrates |
| Selector.Reverse | src/routes/youtube/ytHelpers.ts:86-96 | the reverse of a tier list, element by element |
| Selector.VideoTableIsSplit | src/routes/youtube/ytHelpers.ts:86-96 | each video row's up list is the higher tiers, nearest first; its down list is the lower tiers, nearest first |
| Selector.AudioTableIsSplit | src/routes/youtube/ytHelpers.ts:157-162 | the same for the audio table |
| Selector.SplitRowShape | src/routes/youtube/ytHelpers.ts:86-96 | splitting a descending tier list gives an ascending up list above the key, a descending down list below it, and key, up and down cover all tiers |
| Selector.VideoTableShape | src/routes/youtube/ytHelpers.ts:86-96 | every video row is well shaped over the nine video tiers |
| Selector.AudioTableShape | src/routes/youtube/ytHelpers.ts:157-162 | every audio row is well shaped over the four audio tiers |
| Selector.FindIndex | src/routes/youtube/ytHelpers.ts:101-103 | `findIndex`: -1 exactly when nothing matches, otherwise the first matching position |
| Selector.TierWalkFirstHit | src/routes/youtube/ytHelpers.ts:110-134 | when the first k tiers have no match and tier k first matches at i, the walk returns format i |
| Selector.TierWalkOutcome | src/routes/youtube/ytHelpers.ts:110-136 | the walk finds nothing exactly when no tier matches any format, and anything it finds comes from the input |
| Selector.ExactMatchFirst | src/routes/youtube/ytHelpers.ts:101-106 | an exact match wins over the tables; the first one in list order is returned |
| Selector.UpTierWins | src/routes/youtube/ytHelpers.ts:110-121 | without an exact match, the first up tier with a match decides, and its first match is returned |
| Selector.DownTierAfterUp | src/routes/youtube/ytHelpers.ts:123-134 | down tiers are tried only when no up tier matches, in list order |
| Selector.SelectOutcome | src/routes/youtube/ytHelpers.ts:98-136 | a pick is an element of the input; `null` exactly when the tier is known and neither it nor any up or down tier matches; the throw exactly when the tier is unknown and nothing matches exactly |
| Selector.SelectVideo | src/routes/youtube/ytHelpers.ts:79-137 | a video pick is one of the given formats; the selection throws exactly for a quality outside the table that no label matches with `${quality}p` |
| Selector.SelectAudio | src/routes/youtube/ytHelpers.ts:150-197 | an audio pick is one of the given formats; the selection throws exactly for a bitrate outside the table that no format has |
| Selector.VideoKnownTierFound | src/routes/youtube/ytHelpers.ts:86-136 | for a known video tier, any format labelled with any known tier makes the selection succeed |
| Selector.AudioKnownTierFound | src/routes/youtube/ytHelpers.ts:157-196 | for a known audio tier, any format with any known bitrate makes the selection succeed |
| Selector.TierSearchIgnoresSuffix | src/routes/youtube/ytHelpers.ts:102-128 | the fallback search for 144 matches a "1440p" label, and the exact search for 144 does not |
| Selector.PicksUpTierFor2160 | src/routes/youtube/ytHelpers.ts:110-121 | for 2160 with only 1440p and 4320p on offer, the up tier 4320 wins over the down tier 1440 |
| Selector.GetVideoFormatSafe | src/routes/youtube/ytHelpers.ts:79-137 | the loops with early returns compute the specified selection, and a result is an element of the input |
| Selector.GetAudioFormatSafe | src/routes/youtube/ytHelpers.ts:150-197 | the same for audio, matching on bitrate |
| Text.NatText | src/routes/youtube/ytHelpers.ts:334-336 | `${n}` of a natural number is a non-empty digit string, one digit long exactly below 10 |
| Text.IntText | src/routes/youtube/ytHelpers.ts:102-103 | `${quality}` of a non-negative tier is a digit string; of a negative one a '-' and at least one digit |
| Text.IntTextInjective | src/routes/youtube/ytHelpers.ts:102-103 | different integers print differently |
| Text.DigitsValueOfNatText | src/routes/youtube/ytHelpers.ts:199-203 | reading back `${n}` as digits gives n |
| Text.SplitJoin | src/routes/youtube/ytHelpers.ts:199-200 | `split` then `join` with the same separator gives the string back, and no part holds the separator |
| Text.Split | src/routes/youtube/ytHelpers.ts:199-201 | `split` always yields at least one part |
| Text.SplitAlone | src/routes/youtube/ytHelpers.ts:199-201 | a string without the separator splits into itself alone |
| Text.SplitAroundOne | src/routes/youtube/ytHelpers.ts:199-201 | a string that splits into two parts is the first part, the separator, and the second |
| Text.SplitWithoutSeparator | src/routes/youtube/ytHelpers.ts:30 | a string without the separator splits into itself |
| Text.SplitAtSeparator | src/routes/youtube/ytHelpers.ts:199-200 | the text before the first separator is the first part |
| Text.ContainsAtOffset | src/routes/youtube/ytHelpers.ts:27 | `includes` holds exactly when the substring occurs at some offset |
| Progress.NumberHundredths | src/routes/youtube/ytHelpers.ts:199-203 | `Number(text)` of a digit string is its value, here in hundredths; a text without a '.' reads exactly when it is all digits; a text that reads holds only digits and '.' |
| Progress.DurationHundredths | src/routes/youtube/ytHelpers.ts:199-203 | a duration without any ':' has fewer than three parts and reads as NaN |
| Progress.DurationOfParts | src/routes/youtube/ytHelpers.ts:199-203 | a duration that splits into three readable parts is hr*3600 + min*60 + sec |
| Progress.SecondsHundredths | src/routes/youtube/ytHelpers.ts:199-203 | `ss.ff` reads as ss*100 + ff hundredths |
| Progress.TimeMarkHundredths | src/routes/youtube/ytHelpers.ts:199-203 | `hh:mm:ss.ff` maps to hr*3600 + min*60 + sec, in hundredths |
| Progress.FloorOfShare | src/routes/youtube/ytHelpers.ts:205-213 | `Math.floor(100*part/whole)` is the floor percentage |
| Progress.FloorUnique | src/routes/youtube/ytHelpers.ts:205-213 | there is only one floor percentage |
| Progress.ConvertPercent | src/routes/youtube/ytHelpers.ts:205-213 | the converting percentage is finite exactly when both durations read and the total is positive, and then it is the floor of the share |
| Progress.ShareInRange | src/routes/youtube/ytHelpers.ts:205-213 | a share no larger than its whole gives a percentage in [0, 100], and 100 only for the whole |
| Progress.ConvertPercentInRange | src/routes/youtube/ytHelpers.ts:205-213 | with a readable positive duration and a time mark no later than it, the converting percentage is finite, in [0, 100], the floor of the share, and 100 exactly at the end |
| Progress.ConvertPercentMonotone | src/routes/youtube/ytHelpers.ts:205-213 | the converting percentage never goes down as the time mark advances |
| Progress.ConvertPercentWithoutDuration | src/routes/youtube/ytHelpers.ts:205-213 | with the default empty duration the percentage is NaN |
| Progress.OneMinuteForty | src/routes/youtube/ytHelpers.ts:199-203 | "00:01:40.00" is 100 seconds |
| Progress.ThreeMinutesTwenty | src/routes/youtube/ytHelpers.ts:199-203 | "00:03:20.00" is 200 seconds |
| Progress.ConvertPercentOfReadings | src/routes/youtube/ytHelpers.ts:205-213 | whenever both durations read and the total is positive, the percentage is the one value that is the floor percentage of the readings, whether or not the time mark lies within the total |
| Progress.HalfwayConvertIsFifty | src/routes/youtube/ytHelpers.ts:205-213 | halfway through a 3:20 media file the percentage is 50 |
| Progress.DownloadPercentInRange | src/routes/youtube/ytHelpers.ts:336-337 | `floor(finish*100/total)` lies in [0, 100] for finish ≤ total, and is 100 exactly when all files are done |
| Progress.DownloadPercent | src/routes/youtube/ytHelpers.ts:335-337 | the download percentage is finite exactly when the total is positive, and then it is the floor of finish/total |
| Progress.ToUint32 | src/routes/youtube/ytHelpers.ts:222-224 | `>>> 0` lands below 2^32 and leaves smaller values alone |
| Progress.SizeUnitThresholds | src/routes/youtube/ytHelpers.ts:215-227 | below 2^52 kB: kb under 1024 kB, mb under 1024·1024 kB, gb from there on |
| Progress.SizeUnitWrapsAt2Pow52 | src/routes/youtube/ytHelpers.ts:215-224 | at 2^52 kB the unsigned shift in the gb test wraps to 0, so the size is reported in kb |
| Progress.SizeUnitOf | src/routes/youtube/ytHelpers.ts:215-227 | the unit is kb below 1024 kB; mb only from 1024 kB and gb only from 1024·1024 kB |
| Progress.Fixed2IsNearest | src/routes/youtube/ytHelpers.ts:221-225 | the two-decimal text is the nearest hundredth, with ties rounded up |
| Progress.TwoDecimals | src/routes/youtube/ytHelpers.ts:221-225 | the decimals of `toFixed(2)` are two digits |
| Progress.HundredthsTextReadsBack | src/routes/youtube/ytHelpers.ts:221-225 | the text of a number of hundredths reads back as that number |
| Progress.Fixed2ReadsBack | src/routes/youtube/ytHelpers.ts:221-225 | `toFixed(2)` text reads back as the rounded value |
| Progress.FileSizeTextUnit | src/routes/youtube/ytHelpers.ts:215-227 | the size text ends in the unit `getFileSize` chooses; a kb size is the plain number |
| Progress.FileSizeText | src/routes/youtube/ytHelpers.ts:215-227 | the text ends in the chosen unit, and its number reads back as the rounded gb quotient, the rounded mb quotient of the remainder, or the plain size |
| Progress.FileSizeOf1536 | src/routes/youtube/ytHelpers.ts:215-227 | 1536 kB is "1.50 mb" |
| Progress.DownloadStageCounts | src/routes/youtube/ytHelpers.ts:328-340 | the download stage adds exactly one to `finish` and keeps `total` and the other fields; it sets the "preparing...(finish/total)" message and the floor percentage; finish < total before gives finish ≤ total after |
| Progress.DurationStageOnlyDuration | src/routes/youtube/ytHelpers.ts:360-365 | the duration stage changes only the duration |
| Progress.ConvertStageReplaces | src/routes/youtube/ytHelpers.ts:342-358 | the convert stage replaces the converting state and the client information ("converting...(size)" and the percentage against the stored duration), and keeps the rest |
| Progress.FirstOfTwoDownloads | src/routes/youtube/ytHelpers.ts:328-340 | the first of two downloads reports "preparing...(1/2)" at 50 |
| Progress.ApplyStage | src/routes/youtube/ytHelpers.ts:317-366 | every stage keeps the id and `total`; only `download` adds one to `finish`; `download` and `convert` set the state to progress; `duration` keeps the client information |
| Progress.LastDownloadIsDone | src/routes/youtube/ytHelpers.ts:328-340 | the last of n downloads reports "preparing...(n/n)" at 100 |
| Sessions.SessionInfo.FromId | src/utils/classes.ts:5-24 | a new session's record: its id, `{fetch, "fetching info", 0}`, empty duration, `{0, 0}` and `{0, ""}` |
| Sessions.SessionInfo.FromRecord | src/utils/classes.ts:21-27 | constructing from a record adopts it unchanged |
| Sessions.SessionInfo.SetData | src/utils/classes.ts:29-34 | `data` reads back what was set |
| Sessions.SessionInfo.SetClientInfo | src/utils/classes.ts:36-41 | replaces only the client information, which reads back |
| Sessions.SessionInfo.SetDuration | src/utils/classes.ts:43-48 | replaces only the duration, which reads back |
| Sessions.SessionInfo.SetDownloadProgressState | src/utils/classes.ts:51-56 | replaces only the download state, which reads back |
| Sessions.SessionInfo.SetTotal | src/utils/classes.ts:58-63 | changes only `total`; `finish` is kept |
| Sessions.SessionInfo.SetFinish | src/utils/classes.ts:65-70 | changes only `finish`; `total` is kept |
| Sessions.SessionInfo.SetConvertProgressState | src/utils/classes.ts:73-78 | replaces only the converting state, which reads back |
| Store.ReadAfterSave | src/routes/youtube/ytHelpers.ts:264-314 | a saved record reads back equal |
| Store.Updated | src/routes/youtube/ytHelpers.ts:317-378 | a progress update keeps the folders, the files, every other session and the total; when the record changes, the read and the write succeeded and the new record is the stage applied to the old one |
| Store.WithFile | src/routes/youtube/ytHelpers.ts:388 | writing a file adds it to its session's files and changes nothing else |
| Store.WithoutFiles | src/routes/youtube/ytHandlers.ts:407-426 | unlinking files removes exactly those names from the session's files and changes nothing else |
| Store.SaveIsolated | src/routes/youtube/ytHelpers.ts:264-290 | saving one session leaves every other session as it was |
| Store.ReadMissingFails | src/routes/youtube/ytHelpers.ts:292-314 | a missing folder or record never reads successfully |
| Store.UpdateFacts | src/routes/youtube/ytHelpers.ts:317-378 | a progress update touches only its own session, keeps the folders and files, stores the stage applied on success, and writes nothing when the read or write fails |
| Store.RemoveIdempotent | src/routes/youtube/ytHandlers.ts:179-197 | removing a folder twice equals removing it once |
| Store.SessionStore.constructor | src/routes/youtube/ytHandlers.ts:26 | the store stands for the directory at `tempFolderPath`; as a modelling choice it starts with no session folders |
| Store.SessionStore.CreateSessionFolder | src/routes/youtube/ytHelpers.ts:236-261 | an error exactly when the folder exists or cannot be made; otherwise a new empty folder and nothing else changes |
| Store.SessionStore.SaveInfoToJson | src/routes/youtube/ytHelpers.ts:264-290 | success exactly when the folder exists and the write succeeds; then only that session's record changes |
| Store.SessionStore.ReadSessionFile | src/routes/youtube/ytHelpers.ts:292-314 | success exactly when the record exists and reads, and then it is the stored record |
| Store.SessionStore.UpdateSessionProgress | src/routes/youtube/ytHelpers.ts:317-378 | read, apply the stage through a `SessionInfo`, write back: the new folders are the update function of the old ones |
| Store.SessionStore.AddFile | src/routes/youtube/ytHelpers.ts:388 | the file joins its session's folder, if the folder exists |
| Store.SessionStore.DeleteFile | src/routes/youtube/ytHandlers.ts:407-426 | the file leaves its session's folder; a missing file is no error |
| Store.SessionStore.RemoveSessionFolder | src/routes/youtube/ytHandlers.ts:179-197 | the folder is gone whether or not it existed, and nothing else changes |
| Downloads.SettledStays | src/routes/youtube/ytHelpers.ts:387-428 | after the promise settles, later events do not change it |
| Downloads.SettledIffSomeSettles | src/routes/youtube/ytHelpers.ts:394-428 | the promise settles exactly when a source error, write error or write finish occurs |
| Downloads.FirstSettlingDecides | src/routes/youtube/ytHelpers.ts:394-420 | the first settling event decides: ok for a finish, not ok for either error |
| Downloads.Outcome | src/routes/youtube/ytHelpers.ts:387-428 | the promise is pending exactly when no event settles it |
| Downloads.ProgressUpdates | src/routes/youtube/ytHelpers.ts:405-414 | the download's progress updates keep the folders, the files, every other session and the total |
| Downloads.DownloadFile | src/routes/youtube/ytHelpers.ts:381-429 | the status is the settle-once outcome of the events; the store holds the file and one download-stage update per write finish not preceded by a source error |
| Handlers.OpenDownloadSessionHandler | src/routes/youtube/ytHandlers.ts:106-135 | 206 exactly when the id exists, the folder cannot be made or the save fails; otherwise the id with `{fetch, "fetching info", 0}` and a folder holding the default record |
| Handlers.GetSessionProgressHandler | src/routes/youtube/ytHandlers.ts:138-167 | an unreadable session reports exactly `{error, "session closed 💀", 0}`; otherwise the stored client information verbatim |
| Handlers.VideoUrlValidator | src/routes/youtube/ytHandlers.ts:218-248 | `next` exactly for a valid URL; an invalid URL or a throwing validator gives 201 |
| Handlers.ResolveSessionPath | src/routes/youtube/ytHandlers.ts:261 | `path.resolve(tempFolderPath, sessionID)` is a folder of the id's own only for a non-empty name other than "." and ".." without a '/' |
| Handlers.FolderCheckAsWritten | src/routes/youtube/ytHandlers.ts:261-263 | the check as written: for a folder name it passes exactly when that folder exists; for "", "." and ".." it passes whenever any session folder exists |
| Handlers.CleanupAsWritten | src/routes/youtube/ytHandlers.ts:180-187 | the cleaner's recursive `rm` as written removes exactly the id's own folder for a folder name, and every session folder for "", "." and ".." |
| Handlers.DotSessionRemovesEverySession | src/routes/youtube/ytHandlers.ts:180-187 | with any session open, the id "." passes the check as written, and the cleanup then removes every session, that one included |
| Handlers.CheckedCleanupIsolated | src/routes/youtube/ytHandlers.ts:180-187 | once an id passes the folder check the model uses, the source's cleanup removes that session's folder and keeps every other one |
| Handlers.SessionFolderValidator | src/routes/youtube/ytHandlers.ts:251-283 | `next` exactly when the id names a folder of its own and that folder exists; otherwise 202 |
| Handlers.DownloadSessionCleaner | src/routes/youtube/ytHandlers.ts:170-200 | when the response finishes, the session folder is removed; otherwise nothing changes |
| Handlers.ResolveVideoFormats | src/routes/youtube/ytHandlers.ts:302-325 | the plan is the safe video pick from the filtered list plus the head of the audio list |
| Handlers.VideoPlanFacts | src/routes/youtube/ytHandlers.ts:302-325 | the plan exists exactly when the video pick succeeds and some audio-only format exists; both picks come from the input, and the audio one has the highest bitrate |
| Handlers.ResolveAudioFormat | src/routes/youtube/ytHandlers.ts:475-483 | the safe audio pick from the audio list, which is an audio-only input format |
| Handlers.SetSessionTotal | src/routes/youtube/ytHandlers.ts:327-347 | 203 when the read fails and 204 when the save fails, both with the store unchanged; on success only `total` of the stored record changes |
| Handlers.WithTotalOnlyTotal | src/routes/youtube/ytHandlers.ts:337-341 | setting the total keeps `finish` and every other field |
| Handlers.DownloadBoth | src/routes/youtube/ytHandlers.ts:365-368 | `Promise.allSettled` of the two downloads: each status is its own settle-once outcome, and the store is both downloads applied in the order they finish |
| Handlers.VideoFilesEffect | src/routes/youtube/ytHandlers.ts:365-449 | the downloads and the merge keep the folders, every other session and the total |
| Handlers.DownloadAndMergeVideo | src/routes/youtube/ytHandlers.ts:365-449 | no reply while a download is pending; 205 if either failed; otherwise the processor's reply on "output.mp4"; the new store is `VideoFilesEffect` of the old one |
| Handlers.VideoDownloadEffect | src/routes/youtube/ytHandlers.ts:327-449 | a video request leaves the folders and every other session alone, and its record announces a total of 2 |
| Handlers.AudioDownloadEffect | src/routes/youtube/ytHandlers.ts:485-595 | an audio request leaves the folders and every other session alone, and its record announces a total of 1 |
| Handlers.CleanDownloadCounts | src/routes/youtube/ytHelpers.ts:405-414 | a download that finishes writing counts its file once in the session record |
| Handlers.BothFilesDownloaded | src/routes/youtube/ytHandlers.ts:337-368 | after two clean downloads into a fresh session, in either order, the record counts 2 of 2 and reports "preparing...(2/2)" at 100 |
| Handlers.AudioFileDownloaded | src/routes/youtube/ytHandlers.ts:495-525 | after one clean download into a fresh session, the record counts 1 of 1 and reports "preparing...(1/1)" at 100 |
| Handlers.FirstTerminal | src/routes/youtube/ytHandlers.ts:407-449 | the position of the processor's first `end` or `error`, or the length when there is none |
| Handlers.RunProcessor | src/routes/youtube/ytHandlers.ts:381-449 | the output file appears; `codecData` and `progress` become duration and convert updates up to the first `end` or `error`; `end` unlinks the intermediates and delivers the output, with 205 when the delivery fails before sending and a cut-off transfer when it fails part-way; `error` gives 205; the reply and the store are exactly `ProcessorReply` and `ProcessorEffect`, and the folders stay |
| Handlers.ProcessorSettlesOnce | src/routes/youtube/ytHandlers.ts:407-449 | once the processor ends or fails, later events change neither the reply nor the store |
| Handlers.EndRemovesIntermediates | src/routes/youtube/ytHandlers.ts:407-442 | after `end` the intermediates are gone and the output is still there; the reply is the output when delivered, 205 when the delivery fails before sending, and a cut-off transfer when it fails part-way |
| Handlers.ProcessorErrorIs205 | src/routes/youtube/ytHandlers.ts:444-449 | `error` gives 205 and unlinks nothing |
| Handlers.CodecDataSetsDuration | src/routes/youtube/ytHandlers.ts:391-398 | `codecData` stores the reported duration |
| Handlers.ProgressTickConverts | src/routes/youtube/ytHandlers.ts:399-406 | `progress` stores the converting state and its client information |
| Handlers.TickUpdates | src/routes/youtube/ytHandlers.ts:391-406 | the processor's progress updates keep the folders, the files, every other session and the total |
| Handlers.ProcessorReply | src/routes/youtube/ytHandlers.ts:407-449 | no reply exactly while no `end` or `error` has come; otherwise the output (only when delivered), a cut-off transfer of the output (only when the delivery failed part-way), or 205 |
| Handlers.ProcessorEffect | src/routes/youtube/ytHandlers.ts:391-426 | the processor keeps the folders, every other session and the total |
| Handlers.UnlinkAll | src/routes/youtube/ytHandlers.ts:407-426 | the loop of `unlink` calls leaves the session's files without the intermediates and changes nothing else |
| Handlers.YtVideoDownloadHandler | src/routes/youtube/ytHandlers.ts:286-456 | 205 before the session is read when no plan exists; 203 or 204 with the store unchanged; otherwise the new store is `VideoDownloadEffect` of the old one (total 2, both downloads, the merge) and the record's total is 2; no reply while a download is pending; 205 if either download failed; otherwise the processor's reply with "output.mp4"; the folders stay |
| Handlers.YtAudioDownloadHandler | src/routes/youtube/ytHandlers.ts:459-603 | the same with `AudioDownloadEffect`, total 1, one download and "output.mp3" |
| Handlers.VideoDownloadRoute | src/routes/youtube/youtube.ts:24-30 | URL check (201), then folder check (202), then the handler; validator replies leave the store alone; an id that is not a folder name of its own gets 202; the cleaner removes the session folder exactly when the handler's response finishes, that is when it replied and its transfer was not cut off |
| Handlers.AudioDownloadRoute | src/routes/youtube/youtube.ts:33-39 | the same middleware order and store guarantees with the audio handler |

## Findings

| source | as written | input that shows it | evidently intended | confidence | as-written member | corrected member |
|---|---|---|---|---|---|---|
| src/routes/youtube/ytHandlers.ts:180-187 | the cleaner's `rm` (and the folder check at ytHandlers.ts:261-263) resolve the request's `sessionID` against the temporary directory without validating it | `sessionID` "." with a valid URL while another session is open: the check passes, because the temporary directory exists; the handler answers 205 or 203 (there is no info.json there); then `finish` removes the temporary directory and every session in it ("..": the directory above it) | only an id naming a session folder of its own (as `openDownloadSessionHandler` issues) passes the check, so the cleaner removes that folder alone | not executed | Handlers.DotSessionRemovesEverySession | Handlers.CheckedCleanupIsolated |

## Left out

- Foreign libraries become inputs: ytdl-core (`getInfo`, `downloadFromInfo`, `validateURL`), fluent-ffmpeg, Express responses, `fs`, `JSON` and the UUID v7 generator. Each becomes a boolean or an event sequence, and the session id is a parameter.
- `getVideoFormat` and `getAudioFormat` are unused wrappers over `chooseFormat`. The playlist lookup, `validatePlaylistURL`, `ytSmartSearchHandler` and the `ytListDownloadHandler` stub are not modelled.
- Logging (`VITE_MODE`, `console`) and the bootstrap, router and build files are not modelled. src/routes/youtube/youtube.ts is used only for the middleware order.
- Progress.ConvertPercentInRange and Progress.DownloadPercentInRange: the source divides, then multiplies by 100, in floating point. A product such as 0.29*100 can come out just below a whole number, and then the floor can be one lower than the exact floor computed here.
- Progress.NumberHundredths: only digit strings with at most two decimals are read. Any other spelling that `Number` would accept (a sign, an exponent, more decimals, spaces) is read as NaN.
- Progress.SizeUnitOf: sizes from 2^53 kB up lose precision in JavaScript. Here they stay exact.
- Handlers.SessionFolderValidator, Handlers.DownloadSessionCleaner, Handlers.VideoDownloadRoute and Handlers.AudioDownloadRoute: session ids are modelled as plain folder names, and the model's folder check passes only for such a name (see "## Findings"). The source validates nothing, so an id that `path.resolve` maps to another directory reaches its `existsSync` and its recursive `rm`. The ids "", "." and ".." are modelled only by the as-written members (`FolderCheckAsWritten`, `CleanupAsWritten`). Ids holding a '/' (`"../x"`, `"a/.."`, a trailing '/') and Windows separators are not modelled at all. For such ids the routes' promise that only the session's own folder goes does not describe the source.
- Handlers.SessionFolderValidator: a request body whose `sessionID` is not a string makes `path.resolve` throw, and the catch answers 202. The model's ids are always strings.
- Downloads.DownloadFile: the two downloads of a video run concurrently, and their events can interleave. The model runs them one after the other, in the order their finishes arrive (`audioFinishesFirst`), so each download's updates stay in order.
- Sessions.SessionInfo.FromRecord: the source keeps a reference to the parsed object. Nothing else holds that object, so no aliasing is modelled.
- Handlers.GetSessionProgressHandler: a corrupt info.json makes `JSON.parse` throw, and the handler does not catch it. Here any record that was read is well formed.
- Store.SessionStore.SaveInfoToJson: a failed write leaves the old record; a partly written file is not modelled.
- Store.SessionStore.DeleteFile and Store.SessionStore.RemoveSessionFolder: errors from `unlink` and `rm` are only logged. The model ignores them.
- Handlers.RunProcessor: the output file counts as present from the start of processing, not from the first byte ffmpeg writes.
- Handlers.RunProcessor: when `response.download` fails after the headers were sent, the source's `sendStatus(205)` (ytHandlers.ts:436 and :582) tries to set a header on a response whose headers are already out, which throws `ERR_HTTP_HEADERS_SENT`. The throw happens inside the asynchronous download callback, and nothing in the source catches it. The model gives the reply `Interrupted`, for which the response never emits `finish`, so the cleaner keeps the session folder. It does not model the uncaught exception or what it does to the process.
- Handlers.ProcessorReply and Handlers.ProcessorEffect: only the events up to the first `end` or `error` count, and later ones are ignored. That assumes fluent-ffmpeg emits nothing that matters after it has ended or failed. The `start` event only logs.
