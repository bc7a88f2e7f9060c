/**
 * The display helpers of utils/utils.ts. Their numeric arguments are first
 * turned into text with `String(x)`, so they are modelled on that text.
 */
module EpisodeFormat {
  import opened StringOps

  /** `seasonEpisodeTag(season, episode)` */
  function SeasonEpisodeTag(season: string, episode: string): string
  {
    "S" + PadStartZeros(season, 2) + "E" + PadStartZeros(episode, 2)
  }

  /**
   * The tag is "S", the season text after as many '0's as it lacks of two
   * places, "E", then the episode text padded the same way: neither number
   * is truncated, and nothing but '0's is added.
   */
  lemma TagParts(season: string, episode: string)
    ensures SeasonEpisodeTag(season, episode) ==
      "S" + Zeros(Max(2 - |season|, 0)) + season + "E" + Zeros(Max(2 - |episode|, 0)) + episode
  {
    PadStartZerosParts(season, 2);
    PadStartZerosParts(episode, 2);
  }

  /** `episodeName(season, episode, name)`: the tag, one space, then the name. */
  function EpisodeName(season: string, episode: string, name: string): (r: string)
    ensures var tag := SeasonEpisodeTag(season, episode);
      |r| == |tag| + 1 + |name| && r[..|tag|] == tag && r[|tag|] == ' ' && r[|tag| + 1..] == name
  {
    SeasonEpisodeTag(season, episode) + " " + name
  }

  /** Reads a full episode name back as (tag, name), cutting at the first space. */
  function SplitAtFirstSpace(x: string): (string, string)
  {
    var k := IndexOf(x, ' ');
    if k < 0 then (x, "") else (x[..k], x[k + 1..])
  }

  /** When the numbers hold no space, neither does their tag. */
  lemma TagHasNoSpace(season: string, episode: string)
    requires ' ' !in season && ' ' !in episode
    ensures ' ' !in SeasonEpisodeTag(season, episode)
  {
    TagParts(season, episode);
    assert ' ' !in Zeros(Max(2 - |season|, 0)) && ' ' !in Zeros(Max(2 - |episode|, 0));
  }

  /** When the numbers hold no space, a full episode name splits back into its tag and its name. */
  lemma EpisodeNameSplits(season: string, episode: string, name: string)
    requires ' ' !in season && ' ' !in episode
    ensures SplitAtFirstSpace(EpisodeName(season, episode, name)) == (SeasonEpisodeTag(season, episode), name)
  {
    var tag := SeasonEpisodeTag(season, episode);
    var r := EpisodeName(season, episode, name);
    TagHasNoSpace(season, episode);
    forall j | 0 <= j < |tag| ensures r[j] != ' ' {
      assert r[j] == tag[j];
    }
    IndexOfAt(r, ' ', |tag|);
  }

  /**
   * `floatIntPartPad(num, iPartPlaces, fPartPlaces)` on the text `String(num)`:
   * without a '.', the text is padded to two places and, when `fPartPlaces` is
   * positive, given a '.' and `fPartPlaces` zeros; with a '.', zeros are added in
   * front up to `iPartPlaces` integer digits and behind up to `fPartPlaces`
   * fractional digits.
   */
  function FloatIntPartPad(num: string, iPartPlaces: int := 2, fPartPlaces: int := 3): (r: string)
    ensures |r| >= |num|
  {
    var d := IndexOf(num, '.');
    if d < 0 then
      if fPartPlaces > 0 then PadStartZeros(num, 2) + "." + Zeros(fPartPlaces) else PadStartZeros(num, 2)
    else
      Zeros(Max(iPartPlaces - d, 0)) + num + Zeros(Max(fPartPlaces - (|num| - (d + 1)), 0))
  }

  /** Without a '.' in the text and with fractional places asked for: two integer places, a '.', then `fPartPlaces` zeros; `iPartPlaces` plays no part. */
  lemma FloatIntPartPadNoDotWithFraction(num: string, iPartPlaces: int, fPartPlaces: int)
    requires '.' !in num && fPartPlaces > 0
    ensures var r := FloatIntPartPad(num, iPartPlaces, fPartPlaces);
      var w := Max(2, |num|);
      |r| == w + 1 + fPartPlaces && r[..w] == PadStartZeros(num, 2) &&
      IndexOf(r, '.') == w && AllZeros(r[w + 1..])
  {
    var r := FloatIntPartPad(num, iPartPlaces, fPartPlaces);
    var p := PadStartZeros(num, 2);
    var w := Max(2, |num|);
    assert r == p + "." + Zeros(fPartPlaces);
    assert r[..w] == p;
    assert r[w + 1..] == Zeros(fPartPlaces);
    PadStartZerosAdds(num, 2, '.');
  }

  /** Without a '.' and without fractional places: just the text padded to two places, still without a '.'. */
  lemma FloatIntPartPadNoDotNoFraction(num: string, iPartPlaces: int, fPartPlaces: int)
    requires '.' !in num && fPartPlaces <= 0
    ensures var r := FloatIntPartPad(num, iPartPlaces, fPartPlaces);
      r == PadStartZeros(num, 2) && '.' !in r
  {
    PadStartZerosAdds(num, 2, '.');
  }

  /**
   * With a '.' at index d: the text is kept whole, only '0's are added around
   * it, the integer part gets max(iPartPlaces, d) places and the fractional part
   * max(fPartPlaces, |num| - d - 1).
   */
  lemma FloatIntPartPadWithDot(num: string, iPartPlaces: int, fPartPlaces: int)
    requires '.' in num
    ensures var r := FloatIntPartPad(num, iPartPlaces, fPartPlaces);
      var d := IndexOf(num, '.');
      var lead := Max(iPartPlaces - d, 0);
      |r| == |num| + lead + Max(fPartPlaces - (|num| - d - 1), 0) &&
      r[lead..lead + |num|] == num && AllZeros(r[..lead]) && AllZeros(r[lead + |num|..]) &&
      IndexOf(r, '.') == Max(iPartPlaces, d) &&
      |r| - IndexOf(r, '.') - 1 == Max(fPartPlaces, |num| - d - 1)
  {
    WithDotParts(num, iPartPlaces, fPartPlaces);
    WithDotIndex(num, iPartPlaces, fPartPlaces);
  }

  lemma WithDotParts(num: string, iPartPlaces: int, fPartPlaces: int)
    requires '.' in num
    ensures var r := FloatIntPartPad(num, iPartPlaces, fPartPlaces);
      var d := IndexOf(num, '.');
      var lead := Max(iPartPlaces - d, 0);
      |r| == |num| + lead + Max(fPartPlaces - (|num| - d - 1), 0) &&
      r[lead..lead + |num|] == num && AllZeros(r[..lead]) && AllZeros(r[lead + |num|..])
  {
    var r := FloatIntPartPad(num, iPartPlaces, fPartPlaces);
    var d := IndexOf(num, '.');
    var lead := Max(iPartPlaces - d, 0);
    var z := Zeros(lead);
    var t := Zeros(Max(fPartPlaces - (|num| - (d + 1)), 0));
    assert r == z + num + t;
    assert r[..lead] == z;
    assert r[lead..lead + |num|] == num;
    assert r[lead + |num|..] == t;
  }

  lemma WithDotIndex(num: string, iPartPlaces: int, fPartPlaces: int)
    requires '.' in num
    ensures IndexOf(FloatIntPartPad(num, iPartPlaces, fPartPlaces), '.') == Max(iPartPlaces, IndexOf(num, '.'))
  {
    var r := FloatIntPartPad(num, iPartPlaces, fPartPlaces);
    var d := IndexOf(num, '.');
    var lead := Max(iPartPlaces - d, 0);
    var z := Zeros(lead);
    var t := Zeros(Max(fPartPlaces - (|num| - (d + 1)), 0));
    assert r == z + num + t;
    forall j | 0 <= j < lead + d ensures r[j] != '.' {
      if j < lead {
        assert r[j] == z[j];
      } else {
        assert r[j] == num[j - lead];
        assert num[..d][j - lead] == num[j - lead];
      }
    }
    assert r[lead + d] == num[d];
    IndexOfAt(r, '.', lead + d);
  }

  /**
   * The integer part is not padded to `iPartPlaces` when the text has no '.':
   * asked for three integer places, 5 gets two while 5.0 gets three.
   */
  lemma FloatIntPartPadIgnoresIntPlaces()
    ensures IndexOf(FloatIntPartPad("5", 3, 3), '.') == 2
    ensures IndexOf(FloatIntPartPad("5.0", 3, 3), '.') == 3
  {
    FloatIntPartPadNoDotWithFraction("5", 3, 3);
    assert "5.0"[1] == '.';
    assert IndexOf("5.0", '.') == 1;
    FloatIntPartPadWithDot("5.0", 3, 3);
  }

  /** `floatIntPartPad` with the dot-less text padded to `iPartPlaces`, as the integer-part setting says. */
  function FloatIntPartPadIntended(num: string, iPartPlaces: int := 2, fPartPlaces: int := 3): (r: string)
    ensures |r| >= |num|
  {
    var d := IndexOf(num, '.');
    if d < 0 then
      if fPartPlaces > 0 then PadStartZeros(num, iPartPlaces) + "." + Zeros(fPartPlaces) else PadStartZeros(num, iPartPlaces)
    else
      Zeros(Max(iPartPlaces - d, 0)) + num + Zeros(Max(fPartPlaces - (|num| - (d + 1)), 0))
  }

  /** In both branches the integer part of the corrected form has max(iPartPlaces, its own digits) places. */
  lemma FloatIntPartPadIntendedIntPlaces(num: string, iPartPlaces: int, fPartPlaces: int)
    ensures var r := FloatIntPartPadIntended(num, iPartPlaces, fPartPlaces);
      var d := IndexOf(num, '.');
      var own := if d < 0 then |num| else d;
      (IndexOf(r, '.') < 0 ==> |r| == Max(iPartPlaces, own)) &&
      (IndexOf(r, '.') >= 0 ==> IndexOf(r, '.') == Max(iPartPlaces, own))
  {
    var r := FloatIntPartPadIntended(num, iPartPlaces, fPartPlaces);
    var d := IndexOf(num, '.');
    if d < 0 {
      var p := PadStartZeros(num, iPartPlaces);
      PadStartZerosAdds(num, iPartPlaces, '.');
      if fPartPlaces > 0 {
        assert r == p + "." + Zeros(fPartPlaces);
        forall j | 0 <= j < |p| ensures r[j] != '.' {
          assert r[j] == p[j];
        }
        IndexOfAt(r, '.', |p|);
      }
    } else {
      assert FloatIntPartPadIntended(num, iPartPlaces, fPartPlaces) == FloatIntPartPad(num, iPartPlaces, fPartPlaces);
      FloatIntPartPadWithDot(num, iPartPlaces, fPartPlaces);
    }
  }

  /** With the default two integer places the corrected form and the code as written agree on every input. */
  lemma FloatIntPartPadIntendedAtDefault(num: string, fPartPlaces: int)
    ensures FloatIntPartPadIntended(num, 2, fPartPlaces) == FloatIntPartPad(num, 2, fPartPlaces)
  {
  }
}
