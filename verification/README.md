# Per-file transcription decision, modelled in Dafny

The system watches a data directory for audio and video files. It turns
video into audio with ffmpeg, runs the audio through a Whisper speech model,
writes each transcript as a text file, and keeps a registry of the paths it
has already transcribed. This project models the per-file decision of
`transcribe_file` in `src/main.py` together with the registry's load and save
helpers. External steps become parameters: the ffmpeg run, the model call,
the transcript write and the registry save each have an outcome record
(`Pipeline.Outcomes`). The result of one call (`Pipeline.Effects`) records:

- where the call returned;
- the new in-memory registry;
- what happened to the persisted registry;
- the transcript written, if any;
- what ffmpeg and the model were given;
- whether the temporary audio file was removed.

Modules:

- `Paths` (`paths.dfy`): Python's `str.lower` as far as it matters for
  suffix tests; `endswith`; `any(...)` over an extension list; and
  `os.path.basename`. The program loads `msvcrt.dll` at import, so it runs
  only on Windows. There `os.path` is `ntpath`, so both `/` and `\` separate
  path components, a leading drive `X:` is dropped, and joining inserts `\`.
- `Media` (`media.dfy`): the extension lists and the classification.
- `Registry` (`registry.dfy`): `load_processed_files` and
  `save_processed_files`. The log file is either missing, a listing of paths,
  or unreadable.
- `Pipeline` (`pipeline.dfy`): the constants and `transcribe_file`.
  `extract_audio_from_video` (lines 39-50) is reduced to its outcome:
  `Pipeline.ExtractAudio` gives the temporary audio path when ffmpeg exits
  with status 0 and `None` otherwise. It abstracts an external process and
  is not itself a property.
- `PipelineLemmas` (`pipeline_lemmas.dfy`): properties that relate several
  calls, and the example scenarios.
- `Scan` (`scan.dfy`): the start-up loop that calls `transcribe_file` on a
  sequence of paths sharing one registry.

The temporary audio file is removed only at the end of the `try` block
(lines 80-81), after the registry save. A failed transcription, write or
save leaves it behind. `PipelineLemmas.FailedTranscriptionKeepsTemp` states
this for a raising transcription.

## Model

| member | source | states |
|---|---|---|
| Paths.AnyEndsWith | src/main.py:61-63 | `any(p.endswith(ext) for ext in exts)` holds exactly when some extension in the list is a suffix of p |
| Paths.Basename | src/main.py:73 | the base name is a suffix of the path with no separator in it, and it is the longest such suffix that stops at a separator or at a drive `X:`; a drive is never part of it |
| Media.ExtensionsExclusive | src/main.py:20-21 | a lower-cased path ends with at most one of `.txt`, the audio extensions and the video extensions, so the order of the tests never decides the outcome |
| Media.Classify | src/main.py:56-69 | a path is ignored text, audio or video exactly when its lower-cased form ends with `.txt`, an audio extension or a video extension; otherwise it is unsupported |
| Media.ClassifyIgnoresCase | src/main.py:56-63 | paths that differ only in letter case are classified alike |
| Media.TextSuffixWins | src/main.py:56-58 | any name ending in `.txt`, `x.mp3.txt` included, is classified as text and not as audio |
| Media.UpperCaseAudio | src/main.py:61 | any name ending in `.MP3` is audio |
| Media.ArchiveUnsupported | src/main.py:67-69 | any name ending in `.zip` is unsupported |
| Registry.Load | src/main.py:28-33 | a missing log loads as the empty set; a listing loads as the set of its entries; any other failure raises |
| Registry.Save | src/main.py:35-37 | the saved listing holds every registered path exactly once, and nothing else |
| Registry.LoadAfterSave | src/main.py:28-37 | loading what was saved gives back the saved set, whatever order the listing took |
| Registry.ListingOrderIrrelevant | src/main.py:37 | two listings of one set load as the same registry |
| Registry.ListingSize | src/main.py:37 | a listing without duplicates has as many entries as the set it stands for |
| Pipeline.TranscribeFile | src/main.py:52-84 | ordered early exits (registered, `.txt`, unsupported); each exit is taken exactly in its own situation (no audio: ffmpeg ran and the model did not; transcription error: the model raised; write error: the model returned and the write raised); only a video reaches ffmpeg; the model gets the input for audio and the temp file for video; the path is added only after the transcript is written, and holds the model's text under the input's base name; the store is untouched unless the path was recorded, rewritten exactly on full success (which the save's outcome decides once the path is recorded) and marked failed exactly on a raising save, which leaves the path in memory only; temp removal happens only on full success and only for the temp path |
| Paths.JoinInjective | src/main.py:73 | joining names that share a suffix onto one directory gives one path exactly when the names' heads are equal |
| PipelineLemmas.TranscriptPathByBasename | src/main.py:73 | two inputs share a transcript path exactly when they share a base name |
| PipelineLemmas.SameNameCollides | src/main.py:73 | files of one name in two different folders write one transcript file |
| PipelineLemmas.TranscriptInsideDataDir | src/main.py:17-18 | every transcript path lies inside the watched `./data` tree |
| PipelineLemmas.TranscriptIsSkipped | src/main.py:56-75 | any file whose name is an input's base name plus `.txt`, in whatever folder of the watched tree, is classified as text and then skipped with no effect |
| PipelineLemmas.OwnTranscriptIsSkipped | src/main.py:56-75 | the transcript written for any input is classified as text, and a call for it returns at once without effects |
| PipelineLemmas.SecondCallSkips | src/main.py:53-54 | after any call the path is registered exactly when it already was or the call recorded it, and then the next call for it returns at once with no extraction, model call or write |
| PipelineLemmas.UnrecordedIsRetried | src/main.py:72-84 | a call that did not record its path leaves the registry unchanged, so the path is processed again later |
| PipelineLemmas.FailedTranscriptionKeepsTemp | src/main.py:80-84 | for a video whose transcription raises, the model was called on the temp file, the temp file is not removed, and the registry is unchanged |
| PipelineLemmas.AudioNamedLikeTempIsRemoved | src/main.py:80-81 | an audio input whose path is exactly `temp_audio.wav` is itself removed after a successful run |
| PipelineLemmas.ScenarioAudio | src/main.py:61-78 | `clip.mp3` transcribed as `hello` writes exactly `hello` to `./data/transcriptions\clip.mp3.txt` and records the path in memory and in the store |
| PipelineLemmas.ScenarioFailedExtraction | src/main.py:63-66 | `movie.mp4` whose extraction fails reaches ffmpeg and nothing else |
| PipelineLemmas.ScenarioText | src/main.py:56-58 | an unregistered name such as `notes.txt` returns with no effect |
| PipelineLemmas.ScenarioUnsupported | src/main.py:61-69 | an unregistered name such as `archive.zip` returns with no effect |
| Scan.Run | src/main.py:113-116 | over a sequence of calls the registry only grows, and what it gains is exactly the paths whose calls recorded them |
| Scan.RegisteredStaysSkipped | src/main.py:53-54 | a path registered before a run is skipped wherever it occurs in the run |
| Scan.RecordedThenSkipped | src/main.py:77 | a call that records its path makes every later call for that path a skip |
| Scan.RecordedAtMostOnce | src/main.py:113-116 | within a run, a path is recorded at most once and is never given to ffmpeg or the model after that |

## Left out

- The watchdog observer, `FileHandler.on_created` and the `monitor_directory` sleep loop (lines 87-106) are event delivery and threading. Directory events are dropped at line 93, and every file event is one more `TranscribeFile` call like those of `Scan.Run`.
- The `os.walk` traversal and the model loading in `__main__` (lines 108-118) are filesystem I/O and machine learning. `Scan.Run` takes the paths as a sequence.
- The ffmpeg command line (lines 41-46) and the Whisper model call (line 72) are external processes. Their outcomes are parameters, and the model only records the arguments each one was given.
- JSON encoding, file opening and writing, `os.makedirs` (line 25), the `msvcrt.dll` setup (lines 12-13) and `print` logging are I/O or a foreign library.
- A JSON log that parses to something other than a list of strings is not modelled: any non-list value is `Unreadable`.
- Pipeline.TranscribeFile: a transcript write that raises after `open` may have left a created or truncated file. The model records only completed writes.
- Pipeline.TranscribeFile: a save that raises after `open` truncated the log leaves unknown content. The model records such a save as `StoreWriteFailed`.
- Pipeline.TranscribeFile: `os.path.exists` at line 80 is taken to hold, since the file was just produced or read. A raising `os.remove` comes after the registry save and changes nothing else, so `tempRemoved` means the removal was attempted.
- Paths.Basename: a path that is only a UNC prefix, such as `\\server\share` or a bare `\\server`, with nothing after it, can have an empty base name under `ntpath`. The model gives its last component instead.
- Paths.Join: a name whose second character is `:` makes `ntpath.join` treat it as a drive and drop the directory. NTFS file names cannot contain `:`, so this is not modelled.
- Paths.LowerChar: lower-cases only what can change a test against an ASCII suffix, namely `A`-`Z` and the Kelvin sign. Every other character is kept as it is.
- Concurrency on the shared temporary file is not modelled: calls run one at a time on one thread.
