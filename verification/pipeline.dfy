/**
 * `transcribe_file` of src/main.py: the decision taken for one path, given
 * the in-memory registry and the outcomes of the steps the function hands to
 * the outside world (ffmpeg, the speech model, the transcript write, the
 * registry save).
 *
 * Every exception raised inside the function's `try` block is caught by its
 * `except` and only logged, so a raising step ends the call with whatever
 * effects happened before it.
 */
module Pipeline {
  import opened Wrappers
  import opened Paths
  import opened Media

  const DataDir: string := "./data"
  /** "./data/transcriptions". */
  const TranscriptionsDir: string := DataDir + "/" + "transcriptions"
  const TempAudioFile: string := "temp_audio.wav"
  /** The language hint passed to the speech model. */
  const Language: string := "hi"

  /** Whether ffmpeg exited with status 0. */
  datatype Extraction = Extracted | ExtractionFailed

  /** What `model.transcribe` did: returned a text, or raised. */
  datatype Transcription = Text(text: string) | TranscriptionRaised

  /** Whether a file write completed or raised. */
  datatype Step = Done | Raised

  /** The outcomes of the external steps, should the call reach them. */
  datatype Outcomes = Outcomes(
    extraction: Extraction,
    transcription: Transcription,
    write: Step,
    save: Step)

  /** The point at which `transcribe_file` returned. */
  datatype Exit =
    | AlreadyProcessed    // line 54
    | SkippedText         // line 58
    | UnsupportedFormat   // line 69
    | NoAudio             // line 66
    | TranscribeError     // line 72 raised
    | WriteError          // lines 74-75 raised
    | SaveError           // line 78 raised
    | Completed           // lines 80-81 reached

  datatype Transcript = Transcript(path: string, text: string)

  /** What happened to the persisted registry: not touched, rewritten with a
      listing of the given set, or a save that raised (the file was opened
      for writing, so its content is no longer known). */
  datatype StoreWrite = StoreUntouched | StoreRewritten(entries: set<string>) | StoreWriteFailed

  /** A speech-model call: the audio it was given and the language hint. */
  datatype ModelCall = ModelCall(audio: string, language: string)

  datatype Effects = Effects(
    exit: Exit,
    registry: set<string>,             // the in-memory set afterwards
    store: StoreWrite,
    transcript: Option<Transcript>,    // a completed transcript write
    extractorInput: Option<string>,    // the video handed to ffmpeg
    modelCall: Option<ModelCall>,
    tempRemoved: bool)                 // os.remove(audio_path) was called

  /** An early return: nothing but the exit point. */
  function Quiet(exit: Exit, registry: set<string>): Effects {
    Effects(exit, registry, StoreUntouched, None, None, None, false)
  }

  /** `extract_audio_from_video` with its default output path: the temporary
      audio file when ffmpeg succeeds, `None` otherwise. */
  function ExtractAudio(videoPath: string, outcome: Extraction): (r: Option<string>)
    ensures r.Some? <==> outcome == Extracted
    ensures r.Some? ==> r.value == TempAudioFile
  {
    if outcome == Extracted then Some(TempAudioFile) else None
  }

  /** Where the transcript of `path` is written: the input's base name with
      ".txt" appended, inside the transcriptions directory. */
  function TranscriptPath(path: string): string {
    Join(TranscriptionsDir, Basename(path) + TextSuffix)
  }

  /** True when the call reached line 77, adding the path to the registry. */
  predicate Recorded(e: Effects) {
    e.exit == SaveError || e.exit == Completed
  }

  /** Lines 71-84, from the speech-model call onwards, once `audio` is known:
      the model is called once; the path is recorded exactly when the model
      returned a text and the transcript holding that text was written; the
      store is rewritten, and the temporary file removed, only on full
      success. */
  function TranscribeAudio(path: string, audio: string, registry: set<string>,
                           o: Outcomes, extractorInput: Option<string>): (e: Effects)
    ensures e.exit in {TranscribeError, WriteError, SaveError, Completed}
    ensures e.modelCall == Some(ModelCall(audio, Language))
    ensures e.extractorInput == extractorInput
    ensures e.registry == (if Recorded(e) then registry + {path} else registry)
    ensures Recorded(e) <==> e.transcript.Some?
    ensures e.transcript.Some? <==> o.transcription.Text? && o.write.Done?
    ensures e.transcript.Some? ==> e.transcript.value == Transcript(TranscriptPath(path), o.transcription.text)
    ensures e.store.StoreRewritten? <==> e.exit == Completed
    ensures e.store.StoreRewritten? ==> e.store.entries == e.registry
    ensures e.exit == TranscribeError <==> o.transcription.TranscriptionRaised?
    ensures e.exit == WriteError <==> o.transcription.Text? && o.write.Raised?
    ensures !Recorded(e) ==> e.store == StoreUntouched
    ensures e.store.StoreWriteFailed? <==> e.exit == SaveError
    ensures Recorded(e) ==> (e.exit == Completed <==> o.save.Done?)
    ensures e.tempRemoved <==> e.exit == Completed && audio == TempAudioFile
  {
    var call := Some(ModelCall(audio, Language));
    match o.transcription
    case TranscriptionRaised =>
      Effects(TranscribeError, registry, StoreUntouched, None, extractorInput, call, false)
    case Text(text) =>
      if o.write.Raised? then
        Effects(WriteError, registry, StoreUntouched, None, extractorInput, call, false)
      else
        var transcript := Some(Transcript(TranscriptPath(path), text));
        var added := registry + {path};
        if o.save.Raised? then
          Effects(SaveError, added, StoreWriteFailed, transcript, extractorInput, call, false)
        else
          Effects(Completed, added, StoreRewritten(added), transcript, extractorInput, call,
                  audio == TempAudioFile)
  }

  /** `transcribe_file(path, model, registry)`. */
  function TranscribeFile(path: string, registry: set<string>, o: Outcomes): (e: Effects)
    // Lines 53-54: a registered path returns at once.
    ensures path in registry ==> e == Quiet(AlreadyProcessed, registry)
    // Lines 56-58: then a ".txt" path, whatever else it ends with.
    ensures path !in registry && EndsWith(Lower(path), TextSuffix) ==> e == Quiet(SkippedText, registry)
    // Lines 67-69: an unknown extension returns without effects.
    ensures path !in registry && Classify(path) == Unsupported ==> e == Quiet(UnsupportedFormat, registry)
    // Each exit is taken exactly in its own situation.
    ensures e.exit == AlreadyProcessed <==> path in registry
    ensures e.exit == SkippedText <==> path !in registry && EndsWith(Lower(path), TextSuffix)
    ensures e.exit == UnsupportedFormat <==> path !in registry && Classify(path) == Unsupported
    ensures e.exit == NoAudio <==> e.extractorInput.Some? && e.modelCall.None?
    ensures e.exit == TranscribeError <==> e.modelCall.Some? && o.transcription.TranscriptionRaised?
    ensures e.exit == WriteError <==> e.modelCall.Some? && o.transcription.Text? && o.write.Raised?
    // Only a video reaches ffmpeg, and only that video is given to it.
    ensures e.extractorInput.Some? <==> path !in registry && Classify(path) == Video
    ensures e.extractorInput.Some? ==> e.extractorInput.value == path
    // The model is called on the input itself for audio, on the temporary
    // file for a video whose extraction succeeded, and not at all otherwise.
    ensures e.modelCall.Some? <==>
      path !in registry &&
      (Classify(path) == Audio || (Classify(path) == Video && o.extraction == Extracted))
    ensures e.modelCall.Some? ==> e.modelCall.value.language == Language
    ensures e.modelCall.Some? && Classify(path) == Audio ==> e.modelCall.value.audio == path
    ensures e.modelCall.Some? && Classify(path) == Video ==> e.modelCall.value.audio == TempAudioFile
    // The registry only grows, only by this path, and only when the path
    // was new and this call wrote its transcript.
    ensures e.registry == (if Recorded(e) then registry + {path} else registry)
    ensures Recorded(e) ==> path !in registry
    ensures Recorded(e) <==> e.transcript.Some?
    // The transcript holds exactly the model's text, under the input's base name.
    ensures e.transcript.Some? ==>
      o.transcription.Text? && e.transcript.value == Transcript(TranscriptPath(path), o.transcription.text)
    ensures e.transcript.Some? <==>
      e.modelCall.Some? && o.transcription.Text? && o.write.Done?
    // The persisted registry is rewritten only on full success, with the
    // in-memory set; a raising save leaves the path recorded in memory only.
    ensures e.store.StoreRewritten? <==> e.exit == Completed
    ensures e.store.StoreRewritten? ==> e.store.entries == e.registry
    ensures !Recorded(e) ==> e.store == StoreUntouched
    ensures e.store.StoreWriteFailed? <==> e.exit == SaveError
    ensures e.exit == SaveError ==> path in e.registry
    ensures Recorded(e) ==> (e.exit == Completed <==> o.save.Done?)
    // Lines 80-81: the temporary audio is removed only on full success, and
    // then exactly when the audio path is TEMP_AUDIO_FILE.
    ensures e.tempRemoved <==> e.exit == Completed && e.modelCall.value.audio == TempAudioFile
  {
    if path in registry then Quiet(AlreadyProcessed, registry)
    else if EndsWith(Lower(path), TextSuffix) then Quiet(SkippedText, registry)
    else match Classify(path)
      case Audio => TranscribeAudio(path, path, registry, o, None)
      case Video =>
        var audio := ExtractAudio(path, o.extraction);
        if audio.None? then Effects(NoAudio, registry, StoreUntouched, None, Some(path), None, false)
        else TranscribeAudio(path, audio.value, registry, o, Some(path))
      case _ => Quiet(UnsupportedFormat, registry)
  }
}
