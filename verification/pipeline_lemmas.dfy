/**
 * Properties of `transcribe_file` that relate several calls, or the
 * transcript it writes to the classification that reads it back.
 */
module PipelineLemmas {
  import opened Wrappers
  import opened Paths
  import opened Media
  import opened Pipeline

  /** The transcript path is determined by, and determines, the input's base
      name: inputs with one base name in different directories share one
      transcript file, and inputs with different base names never do. */
  lemma TranscriptPathByBasename(p: string, q: string)
    ensures TranscriptPath(p) == TranscriptPath(q) <==> Basename(p) == Basename(q)
  {
    JoinInjective(TranscriptionsDir, Basename(p), Basename(q), TextSuffix);
  }

  /** Files of one name in different folders of the watched tree write the
      same transcript file. */
  lemma SameNameCollides(dir1: string, dir2: string, name: string)
    requires |dir1| >= 2 && IsSeparator(dir1[|dir1| - 1])
    requires |dir2| >= 2 && IsSeparator(dir2[|dir2| - 1])
    requires NoSeparator(name)
    ensures TranscriptPath(dir1 + name) == TranscriptPath(dir2 + name)
  {
    BasenameAfterSeparator(dir1, name);
    BasenameAfterSeparator(dir2, name);
  }

  /** The transcript directory lies inside the watched tree, so every
      transcript the pipeline writes is later seen there as a new file. */
  lemma TranscriptInsideDataDir(p: string)
    ensures TranscriptPath(p)[..|DataDir| + 1] == DataDir + "/"
  {
    JoinPrefix(TranscriptionsDir, Basename(p) + TextSuffix);
    PrefixOfPrefix(TranscriptPath(p), DataDir + "/", "transcriptions");
  }

  /** A transcript ends in ".txt", so wherever a file with a transcript's
      name shows up in the watched tree (the transcriptions directory itself
      or any other folder) it is skipped without effects whatever the
      outcomes. */
  lemma TranscriptIsSkipped(p: string, w: string, registry: set<string>, o: Outcomes)
    requires EndsWith(w, Basename(p) + TextSuffix)
    ensures Classify(w) == IgnoredText
    ensures var e := TranscribeFile(w, registry, o);
      e.registry == registry && e.store == StoreUntouched && e.transcript == None &&
      e.extractorInput == None && e.modelCall == None && !e.tempRemoved
  {
    var head := w[..|w| - |TextSuffix|];
    assert w == head + TextSuffix;
    TextSuffixWins(head);
  }

  /** The transcript written for `p` is such a file. */
  lemma OwnTranscriptIsSkipped(p: string, registry: set<string>, o: Outcomes)
    ensures Classify(TranscriptPath(p)) == IgnoredText
    ensures TranscribeFile(TranscriptPath(p), registry, o) == Quiet(SkippedText, registry) ||
            TranscribeFile(TranscriptPath(p), registry, o) == Quiet(AlreadyProcessed, registry)
  {
    var w := TranscriptPath(p);
    assert w[|w| - |Basename(p) + TextSuffix|..] == Basename(p) + TextSuffix;
    TranscriptIsSkipped(p, w, registry, o);
  }

  /** After a call the path is registered exactly when it already was or the
      call recorded it; then the next call for it returns at once: no
      extraction, no model call, no write, no registry change. */
  lemma SecondCallSkips(path: string, registry: set<string>, o1: Outcomes, o2: Outcomes)
    ensures var e1 := TranscribeFile(path, registry, o1);
      path in e1.registry <==> path in registry || Recorded(e1)
    ensures var r := TranscribeFile(path, registry, o1).registry;
      path in r ==> TranscribeFile(path, r, o2) == Quiet(AlreadyProcessed, r)
  {
  }

  /** A call that did not record the path leaves the registry as it was, so
      the next scan or event for the path runs the pipeline again. */
  lemma UnrecordedIsRetried(path: string, registry: set<string>, o: Outcomes)
    requires path !in registry
    requires !Recorded(TranscribeFile(path, registry, o))
    ensures TranscribeFile(path, registry, o).registry == registry
    ensures path !in TranscribeFile(path, registry, o).registry
  {
  }

  /** A video whose transcription raises leaves the temporary audio file
      behind: removal sits after the registry save inside the `try`. */
  lemma FailedTranscriptionKeepsTemp(path: string, registry: set<string>, o: Outcomes)
    requires path !in registry && Classify(path) == Video
    requires o.extraction == Extracted && o.transcription == TranscriptionRaised
    ensures var e := TranscribeFile(path, registry, o);
      e.exit == TranscribeError && e.modelCall == Some(ModelCall(TempAudioFile, Language)) &&
      !e.tempRemoved && e.registry == registry
  {
  }

  /** An audio input whose path is literally TEMP_AUDIO_FILE is itself
      removed after a successful run: the cleanup test compares paths, not
      whether an extraction took place. */
  lemma AudioNamedLikeTempIsRemoved(registry: set<string>, o: Outcomes)
    requires TempAudioFile !in registry
    requires o.transcription.Text? && o.write.Done? && o.save.Done?
    ensures Classify(TempAudioFile) == Audio
    ensures TranscribeFile(TempAudioFile, registry, o).tempRemoved
  {
    assert Lower(".wav") == ".wav";
    EndsWithLower(TempAudioFile, AudioFormats[1]);
  }

  /** "clip.mp3" transcribed as "hello": the transcript "clip.mp3.txt" holds
      exactly "hello" and the registry now holds the path. */
  lemma ScenarioAudio(o: Outcomes)
    requires o == Outcomes(ExtractionFailed, Text("hello"), Done, Done)
    ensures var e := TranscribeFile("clip.mp3", {}, o);
      e.exit == Completed &&
      e.transcript == Some(Transcript(Join(TranscriptionsDir, "clip.mp3.txt"), "hello")) &&
      e.registry == {"clip.mp3"} && e.store == StoreRewritten({"clip.mp3"}) &&
      e.extractorInput == None && !e.tempRemoved
  {
    ClipIsAudio();
    ClipTranscriptPath();
  }

  lemma ClipIsAudio()
    ensures Classify("clip.mp3") == Audio
  {
    assert Lower(".mp3") == ".mp3";
    EndsWithLower("clip.mp3", AudioFormats[0]);
  }

  lemma ClipTranscriptPath()
    ensures TranscriptPath("clip.mp3") == Join(TranscriptionsDir, "clip.mp3.txt")
  {
    BasenameOfName("clip.mp3");
  }

  /** "movie.mp4" whose extraction fails: ffmpeg was called, nothing else. */
  lemma ScenarioFailedExtraction(o: Outcomes)
    requires o.extraction == ExtractionFailed
    ensures var e := TranscribeFile("movie.mp4", {}, o);
      e == Effects(NoAudio, {}, StoreUntouched, None, Some("movie.mp4"), None, false)
  {
    assert Lower(".mp4") == ".mp4";
    EndsWithLower("movie.mp4", VideoFormats[0]);
  }

  /** A name such as "notes.txt" returns without any effect. */
  lemma ScenarioText(stem: string, registry: set<string>, o: Outcomes)
    requires stem + TextSuffix !in registry
    ensures TranscribeFile(stem + TextSuffix, registry, o) == Quiet(SkippedText, registry)
  {
    TextSuffixWins(stem);
  }

  /** A name such as "archive.zip" returns without any effect. */
  lemma ScenarioUnsupported(stem: string, registry: set<string>, o: Outcomes)
    requires stem + ".zip" !in registry
    ensures TranscribeFile(stem + ".zip", registry, o) == Quiet(UnsupportedFormat, registry)
  {
    ArchiveUnsupported(stem);
  }
}
