/**
 * How the file-name pattern reads names written with the display tag of
 * utils/utils.ts: "S<season>E<episode>" followed by a video extension.
 */
module TaggedNames {
  import opened Wrappers
  import opened StringOps
  import EpisodeFormat
  import Pattern = SeasonEpisodePattern

  /**
   * The pattern reads "<tag><ext>" back: its season and episode groups are
   * the two zero-padded numbers of the tag.
   */
  lemma TaggedNameMatches(ss: string, es: string, ext: string)
    requires IsDigits(ss) && IsDigits(es) && (ext == ".mkv" || ext == ".mp4")
    ensures Pattern.Match(EpisodeFormat.SeasonEpisodeTag(ss, es) + ext) ==
      Some(Pattern.Captures(PadStartZeros(ss, 2), PadStartZeros(es, 2)))
  {
    var ps := PadStartZeros(ss, 2);
    var pe := PadStartZeros(es, 2);
    PadStartZerosValue(ss, 2);
    PadStartZerosValue(es, 2);
    assert EpisodeFormat.SeasonEpisodeTag(ss, es) + ext == "S" + ps + "E" + pe + ext;
    Pattern.MatchTaggedName(ps, pe, ext);
  }

  /** A tag written from digit strings, followed by an extension, holds no '/'. */
  lemma TaggedNameHasNoSlash(ss: string, es: string, ext: string)
    requires IsDigits(ss) && IsDigits(es) && (ext == ".mkv" || ext == ".mp4")
    ensures '/' !in EpisodeFormat.SeasonEpisodeTag(ss, es) + ext
  {
    var ps := PadStartZeros(ss, 2);
    var pe := PadStartZeros(es, 2);
    PadStartZerosValue(ss, 2);
    PadStartZerosValue(es, 2);
    assert '/' !in ps && '/' !in pe;
    assert EpisodeFormat.SeasonEpisodeTag(ss, es) + ext == "S" + ps + "E" + pe + ext;
  }
}
