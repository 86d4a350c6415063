/**
 * The classification in src/main.py's `transcribe_file`: a path ending
 * (case-insensitively) in ".txt" is skipped; then the audio extensions are
 * tried, then the video extensions; anything else is unsupported.
 */
module Media {
  import opened Paths

  const AudioFormats: seq<string> := [".mp3", ".wav", ".aac", ".m4a"]
  const VideoFormats: seq<string> := [".mp4", ".mkv", ".mov", ".flv"]
  const TextSuffix: string := ".txt"

  datatype Kind = IgnoredText | Audio | Video | Unsupported

  /** True when `p.lower()` ends with one of `exts`. */
  predicate HasExtension(p: string, exts: seq<string>) {
    exists i :: 0 <= i < |exts| && EndsWith(Lower(p), exts[i])
  }

  /** The last four characters of `p.lower()`, the only part every known
      extension can match. */
  function LastFour(p: string): string
    requires |p| >= 4
  {
    Lower(p)[|p| - 4..]
  }

  /** Every extension in these lists is four characters long, so matching
      one of them is membership of the lower-cased last four characters. */
  lemma HasExtensionByLastFour(p: string, exts: seq<string>)
    requires forall i :: 0 <= i < |exts| ==> |exts[i]| == 4
    ensures HasExtension(p, exts) <==> |p| >= 4 && LastFour(p) in exts
  {
    if |p| >= 4 && LastFour(p) in exts {
      var i :| 0 <= i < |exts| && exts[i] == LastFour(p);
      assert EndsWith(Lower(p), exts[i]);
    }
  }

  /** The extensions are pairwise distinct, so a path ends with at most one
      of them: the order in which the source tests ".txt", the audio list and
      the video list never decides the outcome. */
  lemma ExtensionsExclusive(p: string)
    ensures !(EndsWith(Lower(p), TextSuffix) && HasExtension(p, AudioFormats))
    ensures !(EndsWith(Lower(p), TextSuffix) && HasExtension(p, VideoFormats))
    ensures !(HasExtension(p, AudioFormats) && HasExtension(p, VideoFormats))
  {
    HasExtensionByLastFour(p, AudioFormats);
    HasExtensionByLastFour(p, VideoFormats);
    HasExtensionByLastFour(p, [TextSuffix]);
  }

  /** The classification, checked in the source's order. Because the
      extensions are exclusive, each kind is exactly "the path ends with one
      of its extensions", whatever the order. */
  function Classify(p: string): (k: Kind)
    ensures k == IgnoredText <==> EndsWith(Lower(p), TextSuffix)
    ensures k == Audio <==> HasExtension(p, AudioFormats)
    ensures k == Video <==> HasExtension(p, VideoFormats)
    ensures k == Unsupported <==>
      !EndsWith(Lower(p), TextSuffix) && !HasExtension(p, AudioFormats) && !HasExtension(p, VideoFormats)
  {
    ExtensionsExclusive(p);
    var l := Lower(p);
    if EndsWith(l, TextSuffix) then IgnoredText
    else if AnyEndsWith(l, AudioFormats) then Audio
    else if AnyEndsWith(l, VideoFormats) then Video
    else Unsupported
  }

  /** Classification only sees the lower-cased path: two paths that differ
      only in letter case are classified alike. */
  lemma ClassifyIgnoresCase(p: string, q: string)
    requires Lower(p) == Lower(q)
    ensures Classify(p) == Classify(q)
  {
  }

  /** A name ending in ".MP3" is audio, whatever comes before it. */
  lemma UpperCaseAudio(p: string)
    ensures Classify(p + ".MP3") == Audio
  {
    LowerAppend(p, ".MP3");
    assert Lower(".MP3") == AudioFormats[0];
    assert EndsWith(Lower(p + ".MP3"), AudioFormats[0]);
  }

  /** A name ending in ".txt" is skipped as text whatever comes before it,
      so "x.mp3.txt" is not transcribed as audio. */
  lemma TextSuffixWins(p: string)
    ensures Classify(p + TextSuffix) == IgnoredText
  {
    LowerAppend(p, TextSuffix);
    assert Lower(TextSuffix) == TextSuffix;
  }

  /** A name ending in ".zip" is unsupported: no known extension has 'z'
      as its second character. */
  lemma ArchiveUnsupported(p: string)
    ensures Classify(p + ".zip") == Unsupported
  {
    var l := Lower(p + ".zip");
    assert l[|l| - 3] == 'z';
    assert forall ext :: ext in AudioFormats + VideoFormats + [TextSuffix] ==> !EndsWith(l, ext);
  }
}
