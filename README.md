# websiteradio recorder core in Dafny

This project models the logic behind the radio recorder's scheduled and manual recordings, and proves properties of it:

- **Schedule registry and trigger engine** (`scheduler_engine.dfy`, class `SchedulerEngine.Engine`).
  - It holds the ordered schedule list, with add, remove, toggle and get.
  - It holds the active scheduled recordings, keyed by schedule id.
  - The per-tick `checkSchedules` first starts every enabled schedule that is due and not yet active. It then stops every active recording whose time is up.
  - The start and stop callbacks are recorded in a ghost event log. The class invariant ties that log to the active recordings.
- **Server recorder** (`server_recorder.dfy`). It models the minute tick's trigger test, the tick over the configuration list, and the file name a recording is written to.
- **Recording session table** (`recording_manager.dfy`).
  - Class `Session` is one recording in progress. Its data handler keeps the non-empty chunks.
  - Class `Manager` is the `sessions` Map, with start, stop, clean-up, duration and listing.
- **Recordings store** (`storage_manager.dfy`, class `StorageManager.Store`).
  - It models saving, listing and deleting recordings, and the retention filter.
  - It models the clean-up that deletes old recordings and reports how many, and the total storage usage.
- **Formatters** (`formatters.dfy`).
  - The `H:MM:SS` duration label, with a parser proved to invert it.
  - The download file name.
  - The zero case of the byte-size label.
- **Shared pieces**: `common.dfy` holds `Option`, `Result` and the clock reading a tick receives. `strings.dfy` holds the JavaScript string and number operations the core uses: `split`, `padStart`, `trimStart`, `parseInt`, `Number` and character replacement.

Choices made in the model:

- Time is an input.
  - A tick receives a `Clock`: milliseconds since the epoch, local hour, minute and weekday.
  - Operations that read `Date.now()` take `nowMs`.
  - A tick's starts take `startMs`, the clock as `startScheduledRecording` reads it, separately from the tick's own `now`.
  - Date renderings (`toISOString()`, `toTimeString()`) are string parameters.
- The scheduler's `activeRecordings` Map is a sequence of recordings with pairwise distinct schedule ids, in insertion order. The stop loop visits entries in that order, and the order of the stop callbacks is part of the event log.
- The schedule-id type distinguishes numbers from strings. Strict equality (`toggleSchedule`, the Map) tells them apart, while `removeSchedule` compares them as strings.
- The IndexedDB object store is a sequence of entries in ascending key order, which is the order `getAll` lists them in. The key generator starts at 1.

## Model

| member | source | states |
|---|---|---|
| SchedulerEngine.Engine.constructor | src/utils/SchedulerEngine.js:5-9 | The schedules are the saved list, or empty when nothing is saved. No recording is active, no callback is installed, and the invariant holds. |
| SchedulerEngine.Engine.AddSchedule | src/utils/SchedulerEngine.js:20-30 | Appends exactly one entry at the end; earlier entries are unchanged. The entry is enabled and carries the caller's id when one is given (the spread order), else the current milliseconds as a string. Nothing else changes. |
| SchedulerEngine.RemovedMembers | src/utils/SchedulerEngine.js:32-35 | An entry survives `removeSchedule` exactly when its id differs from the argument once both are written as strings. `isLocked` plays no part. |
| SchedulerEngine.RemovedAppend | src/utils/SchedulerEngine.js:33 | Removal filters entry by entry and keeps the survivors in their original order. |
| SchedulerEngine.RemovedIdempotent | src/utils/SchedulerEngine.js:33 | Removing the same id twice is the same as removing it once. |
| SchedulerEngine.RemoveAcrossIdKinds | src/utils/SchedulerEngine.js:33 | A schedule with numeric id n is removed by the string id that writes n. |
| SchedulerEngine.Engine.RemoveSchedule | src/utils/SchedulerEngine.js:32-35 | The list becomes the filtered list. Active recordings, the log and the callbacks are unchanged. |
| SchedulerEngine.FindId | src/utils/SchedulerEngine.js:38 | The index `find` stops at: the first strictly equal id, or the length when there is none. |
| SchedulerEngine.ToggledChangesFirstMatchOnly | src/utils/SchedulerEngine.js:37-43 | Toggling flips `enabled` on the first entry with a strictly equal id and changes nothing else in it. Every other entry is unchanged. An unknown id leaves the list as it was. |
| SchedulerEngine.ToggleTwice | src/utils/SchedulerEngine.js:37-43 | Toggling the same id twice restores the list. |
| SchedulerEngine.Engine.ToggleSchedule | src/utils/SchedulerEngine.js:37-43 | The search loop finds the first match; the list becomes the toggled list; nothing else changes. |
| SchedulerEngine.Engine.GetSchedules | src/utils/SchedulerEngine.js:45-47 | Returns the list itself. |
| SchedulerEngine.ShouldRecordNow | src/utils/SchedulerEngine.js:93-122 | A schedule with neither a cron expression nor a time is never due. A due schedule without a cron expression has no days or lists the current weekday. |
| SchedulerEngine.TimeTrigger | src/utils/SchedulerEngine.js:104-117 | For an `HH:MM` time of digits, the schedule is due exactly when hour and minute match. In addition, `days` must be absent or contain the weekday. |
| SchedulerEngine.EmptyMinuteFieldNeverDue | src/utils/SchedulerEngine.js:106-108 | A time with an empty minute field, such as "09:", is never due, because `parseInt("")` is NaN. |
| SchedulerEngine.EffectiveDuration | src/utils/SchedulerEngine.js:128 | The recorded duration is the schedule's when it is non-zero, else 1800 seconds. It is never 0. |
| SchedulerEngine.JustStartedStoppedIff | src/utils/SchedulerEngine.js:85-90 | A recording started during a tick, at or after the tick's clock reading, is ended by that tick's stop loop exactly when three things hold: a stop callback is installed, its duration is negative, and the start lagged the reading by at most that many seconds. Otherwise it is kept. A positive or missing duration is never stopped in the tick that starts it. |
| SchedulerEngine.LateStartStopsOneTickLater | src/utils/SchedulerEngine.js:86-87 | The start time is read after the tick's clock (line 127). So a one-minute recording started 1 ms after its tick is kept at the next minute tick and stopped at the one after. |
| SchedulerEngine.Engine.StartScheduledRecording | src/utils/SchedulerEngine.js:124-136 | With a start callback installed, it appends a recording under the schedule's id, with the schedule's duration (1800 when it is 0) and the start time it reads, and logs the start. Without one, nothing changes. The invariant is kept. |
| SchedulerEngine.Engine.StopScheduledRecording | src/utils/SchedulerEngine.js:138-144 | When the id is active and a stop callback is installed, it logs the stop with the recording's station and deletes exactly that entry. Otherwise nothing changes. Ids stay distinct, and the invariant is kept. |
| SchedulerEngine.Lookup | src/utils/SchedulerEngine.js:139 | `get` finds nothing exactly when the id is not active. What it finds is an entry under that id. |
| SchedulerEngine.ActiveIdsMembers | src/utils/SchedulerEngine.js:78 | `has(id)` holds exactly when some active recording carries that schedule id. |
| SchedulerEngine.DistinctIdsPairwise | src/utils/SchedulerEngine.js:8 | The active recordings' ids are distinct: no two positions carry the same schedule id, as no two Map entries share a key. |
| SchedulerEngine.RemoveIdMembers | src/utils/SchedulerEngine.js:142 | After `delete(id)` a recording remains exactly when it was active and carries another id. |
| SchedulerEngine.RemoveIdKeepsDistinct | src/utils/SchedulerEngine.js:142 | `delete` keeps the other ids distinct and removes exactly that id from the active set. |
| SchedulerEngine.EntryFoundAndRemoved | src/utils/SchedulerEngine.js:139-142 | In a Map with distinct keys, `get` under an entry's key finds that entry, and `delete` removes just that entry, keeping the order of the rest. |
| SchedulerEngine.Engine.StartDue | src/utils/SchedulerEngine.js:73-82 | The first loop's result equals the start phase over the schedules. The active recordings and the log follow it; the invariant is kept. |
| SchedulerEngine.StartPhaseAppends | src/utils/SchedulerEngine.js:73-82 | The start phase keeps the recordings already active. It appends, in order, one recording per schedule it starts, stamped with the start instant `startMs`, the clock as `startScheduledRecording` reads it. |
| SchedulerEngine.StartPhaseStartsOnlyEligible | src/utils/SchedulerEngine.js:73-82 | It only starts schedules that are in the list, enabled and due, and only with a start callback installed. It never starts an id that was active, and the ids stay distinct: at most one active recording per schedule. |
| SchedulerEngine.StartPhaseComplete | src/utils/SchedulerEngine.js:73-82 | With a start callback installed, every enabled due schedule is active afterwards. |
| SchedulerEngine.Engine.StopExpired | src/utils/SchedulerEngine.js:85-90 | The second loop keeps exactly the stop phase's kept recordings. It logs a stop for each ended one, in Map order. The invariant is kept. |
| SchedulerEngine.Engine.StopIfExpired | src/utils/SchedulerEngine.js:86-88 | One iteration of the stop loop. An expired entry, when a stop callback is installed, is removed from between its neighbours and its stop is logged. Otherwise nothing changes. |
| SchedulerEngine.StopPhaseSplits | src/utils/SchedulerEngine.js:85-90 | A recording is ended exactly when its elapsed time has reached its duration and a stop callback is installed. Every other recording is kept. The two parts add up to the whole. |
| SchedulerEngine.StopPhaseKeepsInvariant | src/utils/SchedulerEngine.js:85-90 | After the stop phase, the kept recordings still have distinct ids. The log still alternates and names exactly the kept ids as live. |
| SchedulerEngine.StopsLogged | src/utils/SchedulerEngine.js:141 | Logging one stop per live recording, each with a distinct id, keeps starts and stops alternating. It removes exactly those ids from the live set. |
| SchedulerEngine.StartsMinusStops | src/utils/SchedulerEngine.js:78 | In an alternating log, each schedule id has one more start than stops while it is live, and as many otherwise. |
| SchedulerEngine.Engine.CheckSchedules | src/utils/SchedulerEngine.js:70-91 | The start phase, stamping new recordings with the start instant, then the stop phase at the tick's `now` over the recordings it produced. The log gets the starts followed by the stops. The schedules are untouched. |
| SchedulerEngine.Engine.Start | src/utils/SchedulerEngine.js:50-61 | Installs the callbacks that are given, then checks the schedules at once, with the same result as `CheckSchedules`. |
| ServerRecorder.FiresAtConfiguredTime | scripts/server-recorder.js:82-84 | For an `HH:MM` time of digits, a schedule fires exactly when hour and minute match and `days` holds the weekday. |
| ServerRecorder.EmptyMinuteFieldFiresOnTheHour | scripts/server-recorder.js:82-84 | `Number("")` is 0, so a time such as "09:" fires at minute 0. |
| ServerRecorder.FiringSchedulesMembers | scripts/server-recorder.js:81-87 | A tick starts a configured schedule exactly when its trigger test holds. No enabled flag and no already-running guard are consulted. |
| ServerRecorder.FiringSchedulesAppend | scripts/server-recorder.js:81 | Schedules are tested independently, in configuration order. |
| ServerRecorder.Tick | scripts/server-recorder.js:81-87 | The loop hands over exactly the firing schedules, in order. |
| ServerRecorder.CollapseWhitespace | scripts/server-recorder.js:31 | The collapsed name holds no white space and is no longer than the name. |
| ServerRecorder.CollapseRun | scripts/server-recorder.js:31 | A whole run of white space becomes exactly one '_'. |
| ServerRecorder.CollapseWithoutWhitespace | scripts/server-recorder.js:31 | A name without white space is left as it is. |
| ServerRecorder.CollapseAppend | scripts/server-recorder.js:31 | Pieces cut after a non-space character collapse separately. |
| ServerRecorder.CollapseKeepsVisibleText | scripts/server-recorder.js:31 | Collapsing keeps every non-space, non-underscore character, in order. |
| ServerRecorder.RecordingFilenameShape | scripts/server-recorder.js:30-31 | The file name is the collapsed name, which has no white space, then '_', then the timestamp, then ".mp3". The timestamp has no ':' or '.', each having become '-'; every other character is kept in place. |
| RecordingManager.Manager.constructor | src/utils/RecordingManager.js:4-7 | Starts with no sessions. |
| RecordingManager.Manager.StartRecording | src/utils/RecordingManager.js:19-81 | A station already recording is refused with "Already recording this station", and the map is unchanged. A failed audio setup leaves no entry and rethrows. On success, exactly one fresh session is inserted under the station id, with empty chunks and start time now. |
| RecordingManager.Session.constructor | src/utils/RecordingManager.js:26-34 | The new session holds the station, the start time and no chunks. |
| RecordingManager.Session.OnDataAvailable | src/utils/RecordingManager.js:63-67 | Appends the delivered chunk when it is non-empty, and keeps the chunks equal to the non-empty deliveries in arrival order. |
| RecordingManager.NonEmpty | src/utils/RecordingManager.js:64-65 | Every kept chunk is non-empty, and no more chunks are kept than were delivered. |
| RecordingManager.NonEmptyJoinsAlike | src/utils/RecordingManager.js:64-65 | Dropping the empty chunks loses no audio: the kept chunks join into the same bytes as all deliveries. |
| RecordingManager.Session.CollectedAudio | src/utils/RecordingManager.js:63-92 | The blob a session builds on stop holds every delivered byte, in order. |
| RecordingManager.ElapsedSeconds | src/utils/RecordingManager.js:93 | The whole seconds elapsed: the greatest d with d·1000 not past the elapsed milliseconds. It is non-negative when now is not before the start. |
| RecordingManager.Manager.StopRecording | src/utils/RecordingManager.js:83-121 | An unknown station gives the "no active recording" error and changes nothing. Otherwise the session is removed whether encoding succeeds or fails. The blob handed to the encoder holds every byte the recorder delivered, in order. On success the result carries the encoded blob, its size, the elapsed seconds and the station. |
| RecordingManager.Manager.CleanupSession | src/utils/RecordingManager.js:123-140 | Deletes that station's session and no other. An absent id changes nothing. |
| RecordingManager.Manager.GetDuration | src/utils/RecordingManager.js:142-146 | 0 for a station not recording; otherwise the whole seconds since its session started. |
| RecordingManager.Manager.IsStationRecording | src/utils/RecordingManager.js:148-150 | True exactly when the station has a session. |
| RecordingManager.Manager.GetActiveSessions | src/utils/RecordingManager.js:152-161 | The keys are exactly the session keys. Each value is the station title and the current duration. |
| StorageManager.Store.constructor | src/utils/StorageManager.js:8-18 | An empty store whose key generator starts at 1. |
| StorageManager.Store.SaveRecording | src/utils/StorageManager.js:21-24 | Appends the recording under a new key, greater than every stored key, and returns that key. Storage usage grows by exactly the record's size (0 when missing). |
| StorageManager.Store.GetAllRecordings | src/utils/StorageManager.js:27-30 | Every stored entry, in key order. |
| StorageManager.Store.DeleteRecording | src/utils/StorageManager.js:33-36 | The store loses the entry under that key and no other. |
| StorageManager.WithoutKeysMembers | src/utils/StorageManager.js:33-36 | An entry survives deletion exactly when its key is not deleted. |
| StorageManager.Store.GetOldRecordings | src/utils/StorageManager.js:39-46 | Returns the store's entries dated strictly before the cut-off `days` days before now. |
| StorageManager.OldAndRecentSplit | src/utils/StorageManager.js:45 | An entry is old exactly when it is stored and dated strictly before the cut-off (an unparsable date is never old). The old and the recent entries partition the store. |
| StorageManager.Store.DeleteOldRecordings | src/utils/StorageManager.js:49-58 | With `days` omitted the retention is 30 days. Returns the number of old recordings. The store is left holding exactly the recent ones, in order, so none is older than the cut-off. |
| StorageManager.DeletingOldKeysLeavesRecent | src/utils/StorageManager.js:53-55 | In a store with ascending keys, deleting the old recordings' keys one by one leaves exactly the recent ones. |
| StorageManager.WithoutKeysTwice | src/utils/StorageManager.js:53-55 | Deleting keys one after another equals deleting them together. |
| StorageManager.Store.GetStorageUsage | src/utils/StorageManager.js:61-65 | The sum of `size` over the stored recordings, with a missing size counted as 0. |
| StorageManager.StorageUsage | src/utils/StorageManager.js:63 | The usage of an empty store is 0. |
| StorageManager.StorageUsageAppend | src/utils/StorageManager.js:21-65 | Saving one more recording adds exactly its size to the usage. |
| StorageManager.StorageUsageSplits | src/utils/StorageManager.js:63 | The usage is the usage of the old recordings plus that of the recent ones. |
| Formatters.FormatBytes | src/utils/formatters.js:2-8 | Zero bytes is labelled "0 Bytes". |
| Formatters.DurationParts | src/utils/formatters.js:12-14 | hours·3600 + minutes·60 + seconds equals the input, with minutes and seconds below 60. |
| Formatters.FormatDurationShape | src/utils/formatters.js:11-20 | Below an hour, the label is `M:SS` with no hours field. From an hour on, it is `H:MM:SS` with two-digit minutes. The seconds field is always two digits. |
| Formatters.FormatDurationRoundTrip | src/utils/formatters.js:11-20 | Reading a label back gives the number of seconds it was made from. |
| Formatters.FormatDurationInjective | src/utils/formatters.js:11-20 | Different durations get different labels. |
| Formatters.DownloadFilenameParts | src/utils/formatters.js:36-41 | The name is the station name, '_', the date part, '_', the time part and ".mp3". The date part is the ISO text before the first 'T'. The time part is the time text before the first space, with each ':' made '-' and nothing else changed. |
| Strings.ParseIntOfDigits | src/utils/SchedulerEngine.js:107-108 | `parseInt` of a run of digits is its decimal value. |
| Strings.ToNumberOfDigits | scripts/server-recorder.js:82 | `Number` of a run of digits is its decimal value. |

## Left out

- The cron branch of `shouldRecordNow` (src/utils/SchedulerEngine.js:95-103) delegates to `cron-parser`, which is not part of this model. `ShouldRecordNow` takes `cronDue`, the expressions whose previous occurrence lies within a minute of now. An exception it would raise and swallow counts as "not due".
- Loading and saving the schedule list in localStorage are left out; the constructor takes the parsed saved list. A JSON parse error is also left out.
- `setInterval` and `clearInterval` (`start`'s timer and `stop`) are left out; a tick is an explicit `CheckSchedules` call with the current clock.
- The callbacks themselves are left out; only whether each is installed, and the ghost log of their calls, are kept.
- Aliasing of schedule objects: `toggleSchedule` mutates an object that `getSchedules` callers also hold. The model's schedules are values, so the flip is visible only through the engine's list.
- Schedules without an `id` field are left out; every schedule carries an id.
- SchedulerEngine.Engine.StartScheduledRecording: requires that the schedule's id is not active. `checkSchedules`, its only caller, guarantees this. A direct call with an active id, which would overwrite the Map entry in place, is not modelled.
- `startScheduledRecording` reads the clock (`new Date()`) once per start. The model stamps every recording a tick starts with one instant, `startMs`. That instant is separate from the tick's `now`, which the stop loop uses, so the lag that can delay a stop by one tick is kept. Differences between the start times of schedules started in the same tick are not modelled.
- `activeRecordings` is a sequence with distinct ids in insertion order, not a Map object. Re-inserting an existing key is excluded by the requirement above.
- The elapsed-time test `(now - startTime) / 1000 >= duration` is taken in exact arithmetic (`now - startTime >= 1000·duration`), not in floating point.
- `parseInt` and `Number` are modelled on decimal text only. Hexadecimal, fractional and exponent forms are not modelled.
- Dates and time zones: `Date` objects, `toISOString()`, `toTimeString()` and `toLocaleTimeString()` are inputs, not computed. The retention cut-off `setDate(getDate() - days)` is taken as `days` whole days of milliseconds, so daylight-saving shifts are not modelled.
- The server recorder's network request, file stream, timeout and directory creation (scripts/server-recorder.js:37-68) are I/O and are left out. Only the trigger, the tick and the file name are modelled.
- The audio context, the hidden audio element, the audio graph and the MediaRecorder (src/utils/RecordingManager.js:9-17, 37-71) are one step that succeeds or fails: `setupSucceeds`. A rejection from `initAudioContext` before the session is built is not modelled.
- MP3 encoding (`encodeToMp3`) is not part of this model. `StopRecording` takes it as a function parameter that yields the encoded blob, or `None` when encoding throws.
- The asynchronous interleaving of `stopRecording` is not modelled: its stop handler runs at once. A final chunk the recorder delivers when stopped is a separate `OnDataAvailable` call made before `StopRecording`. Concurrent starts or stops of the same station are not modelled.
- Releasing the audio element and graph nodes in `cleanupSession` (src/utils/RecordingManager.js:127-137) is not modelled; only the removal from the map is.
- Formatters.FormatBytes: only the zero case is given a label. Other sizes go through a floating-point logarithm and rounding, which are not modelled (the function yields `None` for them).
- `formatDate` (locale formatting) and `getAvailableStorage` (the browser's storage estimate) are left out.
- The IndexedDB store is a sequence of entries in ascending key order rather than a key-to-record map. Records saved with an explicit `id`, the `date` and `stationId` indexes, and the database opening and upgrade are left out.
- A recording's `date` is its parsed time in milliseconds, or `None` when `new Date(rec.date)` is invalid; parsing itself is left out.
