/**
 * The file-name pattern of the episode index,
 *
 *   ^ .*? ([sS](eason)?)? (?<season>\d+) (.|([eE](pisode)?)?) (?<episode>\d+) .*? \.(mkv|mp4) $
 *
 * (no flags: `.` matches anything but a line terminator, `\d` is [0-9]), in two forms:
 *  - declaratively, as the set of ways (`Split`s) a name can be cut into the
 *    pattern's parts, and
 *  - operationally, as the backtracking search a JavaScript engine performs,
 *    trying the alternatives of every part in the engine's priority order:
 *    the lazy `.*?` shortest first, a greedy `?` with its group first, a greedy
 *    `\d+` longest first, and the left branch of `|` first.
 * The search is proved sound (every result is a Split), complete (it finds a
 * result whenever a Split exists) and leftmost (its prefix `.*?` is the shortest
 * of all Splits).
 */
module SeasonEpisodePattern {
  import opened Wrappers
  import opened StringOps

  /** What `.` does not match without the `s` flag. */
  predicate IsLineTerminator(ch: char)
  {
    ch == '\n' || ch == '\r' || ch == '\U{2028}' || ch == '\U{2029}'
  }

  /** No line terminator in s[i..j]. */
  predicate NoLineTerminatorIn(s: string, i: nat, j: nat)
  {
    i <= j <= |s| && forall k :: i <= k < j ==> !IsLineTerminator(s[k])
  }

  /** Only digits in s[i..j]. */
  predicate DigitsIn(s: string, i: nat, j: nat)
  {
    i <= j <= |s| && forall k :: i <= k < j ==> IsDigit(s[k])
  }

  lemma DigitsInIsDigits(s: string, i: nat, j: nat)
    requires DigitsIn(s, i, j)
    ensures IsDigits(s[i..j])
  {
  }

  /** `([sS](eason)?)?` */
  predicate IsTag(t: string)
  {
    t == "" || t == "s" || t == "S" || t == "season" || t == "Season"
  }

  /** `(.|([eE](pisode)?)?)`; the one-letter `e`/`E` are already single characters. */
  predicate IsSeparator(t: string)
  {
    t == "" || (|t| == 1 && !IsLineTerminator(t[0])) || t == "episode" || t == "Episode"
  }

  /** `\.(mkv|mp4)` */
  predicate IsExtension(t: string)
  {
    t == ".mkv" || t == ".mp4"
  }

  /**
   * Cut points of a name s: s[..p] is the leading `.*?`, s[p..a] the tag,
   * s[a..b] the season group, s[b..c] the separator, s[c..d] the episode
   * group, s[d..|s|-4] the trailing `.*?` and s[|s|-4..] the extension.
   */
  datatype Split = Split(p: nat, a: nat, b: nat, c: nat, d: nat)

  predicate TagDone(s: string, p: nat, a: nat)
  {
    p <= a <= |s| && NoLineTerminatorIn(s, 0, p) && IsTag(s[p..a])
  }

  predicate SeasonDone(s: string, p: nat, a: nat, b: nat)
  {
    TagDone(s, p, a) && a < b && DigitsIn(s, a, b)
  }

  predicate SeparatorDone(s: string, p: nat, a: nat, b: nat, c: nat)
  {
    SeasonDone(s, p, a, b) && b <= c <= |s| && IsSeparator(s[b..c])
  }

  /** `.*?\.(mkv|mp4)$` matches the rest of s from position d. */
  predicate TailOk(s: string, d: nat)
  {
    d + 4 <= |s| && NoLineTerminatorIn(s, d, |s| - 4) && IsExtension(s[|s| - 4..])
  }

  predicate ValidSplit(s: string, sp: Split)
  {
    SeparatorDone(s, sp.p, sp.a, sp.b, sp.c) &&
    sp.c < sp.d && DigitsIn(s, sp.c, sp.d) && TailOk(s, sp.d)
  }

  /** The pattern matches the name. */
  ghost predicate Accepts(s: string)
  {
    exists sp :: ValidSplit(s, sp)
  }

  /** Length of the longest digit run at i: where a greedy `\d+` starts backtracking from. */
  function DigitRun(s: string, i: nat): (n: nat)
    requires i <= |s|
    ensures i + n <= |s|
    ensures i + n < |s| ==> !IsDigit(s[i + n])
    decreases |s| - i
  {
    if i < |s| && IsDigit(s[i]) then 1 + DigitRun(s, i + 1) else 0
  }

  lemma {:induction false} DigitRunDigits(s: string, i: nat)
    requires i <= |s|
    ensures DigitsIn(s, i, i + DigitRun(s, i))
    decreases |s| - i
  {
    if i < |s| && IsDigit(s[i]) {
      DigitRunDigits(s, i + 1);
    }
  }

  /** A digit run that ends at a non-digit or at the end of s is the longest one. */
  lemma {:induction false} DigitRunExact(s: string, i: nat, j: nat)
    requires DigitsIn(s, i, j) && (j == |s| || !IsDigit(s[j]))
    ensures DigitRun(s, i) == j - i
    decreases j - i
  {
    if i < j {
      DigitRunExact(s, i + 1, j);
    }
  }

  /** Every digit run at i is within the longest one. */
  lemma {:induction false} DigitRunCovers(s: string, i: nat, j: nat)
    requires DigitsIn(s, i, j)
    ensures j - i <= DigitRun(s, i)
    decreases j - i
  {
    if i < j {
      DigitRunCovers(s, i + 1, j);
    }
  }

  /** `\.(mkv|mp4)$` at j, character by character. */
  predicate ExtensionAt(s: string, j: nat)
  {
    j + 4 == |s| && s[j] == '.' && s[j + 1] == 'm' &&
    ((s[j + 2] == 'k' && s[j + 3] == 'v') || (s[j + 2] == 'p' && s[j + 3] == '4'))
  }

  lemma ExtensionAtIsExtension(s: string, j: nat)
    requires j + 4 == |s|
    ensures ExtensionAt(s, j) <==> IsExtension(s[j..])
  {
    assert |s[j..]| == 4;
    assert s[j..][0] == s[j] && s[j..][1] == s[j + 1] && s[j..][2] == s[j + 2] && s[j..][3] == s[j + 3];
    if ExtensionAt(s, j) {
      assert s[j..] == [s[j], s[j + 1], s[j + 2], s[j + 3]];
    }
  }

  /** One step of the lazy star: stop here, or take one more non-terminator. */
  lemma TailOkStep(s: string, j: nat)
    requires j <= |s|
    ensures TailOk(s, j) <==>
      (ExtensionAt(s, j) || (j < |s| && !IsLineTerminator(s[j]) && TailOk(s, j + 1)))
  {
    if j + 4 == |s| {
      assert s[j..|s| - 4] == [];
      ExtensionAtIsExtension(s, j);
      assert !TailOk(s, j + 1);
    }
  }

  /**
   * The trailing `.*?\.(mkv|mp4)$` from position j: the lazy star first tries
   * to stop, then takes one more character that is not a line terminator.
   */
  function LazyTail(s: string, j: nat): bool
    requires j <= |s|
    decreases |s| - j
  {
    if ExtensionAt(s, j) then true
    else if j < |s| && !IsLineTerminator(s[j]) then LazyTail(s, j + 1)
    else false
  }

  /** The lazy search for the tail succeeds exactly when the tail matches. */
  lemma {:induction false} LazyTailMatches(s: string, j: nat)
    requires j <= |s|
    ensures LazyTail(s, j) <==> TailOk(s, j)
    decreases |s| - j
  {
    TailOkStep(s, j);
    if j < |s| && !IsLineTerminator(s[j]) {
      LazyTailMatches(s, j + 1);
    }
  }

  /** Greedy `(?<episode>\d+)` at c: tries the longest digit run first, then shorter ones. */
  function EpisodeDigits(s: string, p: nat, a: nat, b: nat, c: nat, len: nat): (r: Option<Split>)
    requires c + len <= |s|
    ensures r.Some? ==> r.value == Split(p, a, b, c, r.value.d) && c < r.value.d <= c + len
    decreases len
  {
    if len == 0 then None
    else if LazyTail(s, c + len) then Some(Split(p, a, b, c, c + len))
    else EpisodeDigits(s, p, a, b, c, len - 1)
  }

  /** `[eE]pisode` at b. */
  predicate EpisodeWordAt(s: string, b: nat)
  {
    b + 7 <= |s| && (s[b] == 'e' || s[b] == 'E') && s[b + 1] == 'p' && s[b + 2] == 'i' &&
    s[b + 3] == 's' && s[b + 4] == 'o' && s[b + 5] == 'd' && s[b + 6] == 'e'
  }

  /** The episode group after a separator of length o. */
  function AfterSeparator(s: string, p: nat, a: nat, b: nat, o: nat): (r: Option<Split>)
    requires b + o <= |s|
    ensures r.Some? ==> r.value.p == p && r.value.a == a && r.value.b == b && r.value.c == b + o
  {
    EpisodeDigits(s, p, a, b, b + o, DigitRun(s, b + o))
  }

  /**
   * `(.|([eE](pisode)?)?)` at b, alternatives in priority order: `.`, then
   * `[eE]pisode`, then `[eE]`, then the empty string.
   */
  function TrySeparators(s: string, p: nat, a: nat, b: nat): (r: Option<Split>)
    requires b <= |s|
    ensures r.Some? ==> r.value.p == p && r.value.a == a && r.value.b == b
  {
    var anyChar := if b < |s| && !IsLineTerminator(s[b]) then AfterSeparator(s, p, a, b, 1) else None;
    if anyChar.Some? then anyChar
    else
      var word := if EpisodeWordAt(s, b) then AfterSeparator(s, p, a, b, 7) else None;
      if word.Some? then word
      else
        var letter := if b < |s| && (s[b] == 'e' || s[b] == 'E') then AfterSeparator(s, p, a, b, 1) else None;
        if letter.Some? then letter
        else AfterSeparator(s, p, a, b, 0)
  }

  /** Greedy `(?<season>\d+)` at a: tries the longest digit run first, then shorter ones. */
  function SeasonDigits(s: string, p: nat, a: nat, len: nat): (r: Option<Split>)
    requires a + len <= |s|
    ensures r.Some? ==> r.value.p == p && r.value.a == a && a < r.value.b <= a + len
    decreases len
  {
    if len == 0 then None
    else
      var r := TrySeparators(s, p, a, a + len);
      if r.Some? then r
      else SeasonDigits(s, p, a, len - 1)
  }

  /** `[sS]eason` at p. */
  predicate SeasonWordAt(s: string, p: nat)
  {
    p + 6 <= |s| && (s[p] == 's' || s[p] == 'S') && s[p + 1] == 'e' && s[p + 2] == 'a' &&
    s[p + 3] == 's' && s[p + 4] == 'o' && s[p + 5] == 'n'
  }

  /** The season group after a tag of length o. */
  function AfterTag(s: string, p: nat, o: nat): (r: Option<Split>)
    requires p + o <= |s|
    ensures r.Some? ==> r.value.p == p && r.value.a == p + o
  {
    SeasonDigits(s, p, p + o, DigitRun(s, p + o))
  }

  /**
   * `([sS](eason)?)?` at p, alternatives in priority order: `[sS]eason`, then
   * `[sS]`, then the empty string.
   */
  function TryTags(s: string, p: nat): (r: Option<Split>)
    requires p <= |s|
    ensures r.Some? ==> r.value.p == p
  {
    var word := if SeasonWordAt(s, p) then AfterTag(s, p, 6) else None;
    if word.Some? then word
    else
      var letter := if p < |s| && (s[p] == 's' || s[p] == 'S') then AfterTag(s, p, 1) else None;
      if letter.Some? then letter
      else AfterTag(s, p, 0)
  }

  /** The leading lazy `.*?`: tries the rest of the pattern at p, then lets the prefix grow by one. */
  function TryPrefix(s: string, p: nat): (r: Option<Split>)
    requires p <= |s|
    ensures r.Some? ==> p <= r.value.p
    decreases |s| - p
  {
    var r := TryTags(s, p);
    if r.Some? then r
    else if p < |s| && !IsLineTerminator(s[p]) then TryPrefix(s, p + 1)
    else None
  }

  /** The match `seasonEpisodeRegex.exec(s)` finds, as its cut points. */
  function Exec(s: string): Option<Split>
  {
    TryPrefix(s, 0)
  }

  // Soundness: every cut the search returns is a way of cutting the name into the pattern's parts.

  lemma {:induction false} EpisodeDigitsSound(s: string, p: nat, a: nat, b: nat, c: nat, len: nat)
    requires SeparatorDone(s, p, a, b, c) && DigitsIn(s, c, c + len)
    ensures EpisodeDigits(s, p, a, b, c, len).Some? ==> ValidSplit(s, EpisodeDigits(s, p, a, b, c, len).value)
    decreases len
  {
    if len > 0 {
      LazyTailMatches(s, c + len);
      if !LazyTail(s, c + len) {
        EpisodeDigitsSound(s, p, a, b, c, len - 1);
      }
    }
  }

  lemma AfterSeparatorSound(s: string, p: nat, a: nat, b: nat, o: nat)
    requires SeasonDone(s, p, a, b) && b + o <= |s| && IsSeparator(s[b..b + o])
    ensures AfterSeparator(s, p, a, b, o).Some? ==> ValidSplit(s, AfterSeparator(s, p, a, b, o).value)
  {
    DigitRunDigits(s, b + o);
    EpisodeDigitsSound(s, p, a, b, b + o, DigitRun(s, b + o));
  }

  lemma TrySeparatorsSound(s: string, p: nat, a: nat, b: nat)
    requires SeasonDone(s, p, a, b)
    ensures TrySeparators(s, p, a, b).Some? ==> ValidSplit(s, TrySeparators(s, p, a, b).value)
  {
    if b < |s| && !IsLineTerminator(s[b]) {
      assert s[b..b + 1] == [s[b]];
      AfterSeparatorSound(s, p, a, b, 1);
    }
    if EpisodeWordAt(s, b) {
      if s[b] == 'e' {
        assert s[b..b + 7] == "episode";
      } else {
        assert s[b..b + 7] == "Episode";
      }
      AfterSeparatorSound(s, p, a, b, 7);
    }
    assert s[b..b] == [];
    AfterSeparatorSound(s, p, a, b, 0);
  }

  lemma {:induction false} SeasonDigitsSound(s: string, p: nat, a: nat, len: nat)
    requires TagDone(s, p, a) && DigitsIn(s, a, a + len)
    ensures SeasonDigits(s, p, a, len).Some? ==> ValidSplit(s, SeasonDigits(s, p, a, len).value)
    decreases len
  {
    if len > 0 {
      TrySeparatorsSound(s, p, a, a + len);
      if TrySeparators(s, p, a, a + len).None? {
        SeasonDigitsSound(s, p, a, len - 1);
      }
    }
  }

  lemma AfterTagSound(s: string, p: nat, o: nat)
    requires p + o <= |s| && NoLineTerminatorIn(s, 0, p) && IsTag(s[p..p + o])
    ensures AfterTag(s, p, o).Some? ==> ValidSplit(s, AfterTag(s, p, o).value)
  {
    DigitRunDigits(s, p + o);
    SeasonDigitsSound(s, p, p + o, DigitRun(s, p + o));
  }

  lemma TryTagsSound(s: string, p: nat)
    requires NoLineTerminatorIn(s, 0, p)
    ensures TryTags(s, p).Some? ==> ValidSplit(s, TryTags(s, p).value)
  {
    if SeasonWordAt(s, p) {
      if s[p] == 's' {
        assert s[p..p + 6] == "season";
      } else {
        assert s[p..p + 6] == "Season";
      }
      AfterTagSound(s, p, 6);
    }
    if p < |s| && (s[p] == 's' || s[p] == 'S') {
      assert s[p..p + 1] == [s[p]];
      AfterTagSound(s, p, 1);
    }
    assert s[p..p] == [];
    AfterTagSound(s, p, 0);
  }

  lemma {:induction false} TryPrefixSound(s: string, p: nat)
    requires NoLineTerminatorIn(s, 0, p)
    ensures TryPrefix(s, p).Some? ==> ValidSplit(s, TryPrefix(s, p).value)
    decreases |s| - p
  {
    TryTagsSound(s, p);
    if TryTags(s, p).None? && p < |s| && !IsLineTerminator(s[p]) {
      TryPrefixSound(s, p + 1);
    }
  }

  /** Soundness: whatever the search returns is a way of cutting the name into the pattern's parts. */
  lemma ExecSound(s: string)
    ensures Exec(s).Some? ==> ValidSplit(s, Exec(s).value)
  {
    TryPrefixSound(s, 0);
  }

  // Completeness: the search finds a cut whenever one exists, and the leftmost one.

  /** The greedy episode group reaches every shorter run after which the tail matches, and stops no earlier. */
  lemma {:induction false} EpisodeDigitsComplete(s: string, p: nat, a: nat, b: nat, c: nat, len: nat, d: nat)
    requires c < d <= c + len <= |s| && TailOk(s, d)
    ensures EpisodeDigits(s, p, a, b, c, len).Some?
    ensures d <= EpisodeDigits(s, p, a, b, c, len).value.d
    decreases len
  {
    LazyTailMatches(s, c + len);
    if !LazyTail(s, c + len) {
      EpisodeDigitsComplete(s, p, a, b, c, len - 1, d);
    }
  }

  /** Which alternative of the separator a separator string is. */
  lemma SeparatorCases(s: string, b: nat, c: nat)
    requires b <= c <= |s| && IsSeparator(s[b..c])
    ensures c == b || (c == b + 1 && !IsLineTerminator(s[b])) || (c == b + 7 && EpisodeWordAt(s, b))
  {
    var t := s[b..c];
    if c == b + 1 {
      assert t[0] == s[b];
    } else if c == b + 7 {
      assert t[0] == s[b] && t[1] == s[b + 1] && t[2] == s[b + 2] && t[3] == s[b + 3];
      assert t[4] == s[b + 4] && t[5] == s[b + 5] && t[6] == s[b + 6];
    }
  }

  /** Which alternative of the tag a tag string is. */
  lemma TagCases(s: string, p: nat, a: nat)
    requires p <= a <= |s| && IsTag(s[p..a])
    ensures a == p || (a == p + 1 && (s[p] == 's' || s[p] == 'S')) || (a == p + 6 && SeasonWordAt(s, p))
  {
    var t := s[p..a];
    if a == p + 1 {
      assert t[0] == s[p];
    } else if a == p + 6 {
      assert t[0] == s[p] && t[1] == s[p + 1] && t[2] == s[p + 2];
      assert t[3] == s[p + 3] && t[4] == s[p + 4] && t[5] == s[p + 5];
    }
  }

  lemma TrySeparatorsComplete(s: string, p: nat, a: nat, b: nat, c: nat, d: nat)
    requires ValidSplit(s, Split(p, a, b, c, d))
    ensures TrySeparators(s, p, a, b).Some?
  {
    SeparatorCases(s, b, c);
    DigitRunCovers(s, c, d);
    EpisodeDigitsComplete(s, p, a, b, c, DigitRun(s, c), d);
    assert AfterSeparator(s, p, a, b, c - b).Some?;
  }

  /** The greedy season group reaches every shorter run after which the separator search succeeds. */
  lemma {:induction false} SeasonDigitsComplete(s: string, p: nat, a: nat, len: nat, b: nat)
    requires a < b <= a + len <= |s| && TrySeparators(s, p, a, b).Some?
    ensures SeasonDigits(s, p, a, len).Some?
    decreases len
  {
    if b < a + len && TrySeparators(s, p, a, a + len).None? {
      SeasonDigitsComplete(s, p, a, len - 1, b);
    }
  }

  lemma TryTagsComplete(s: string, p: nat, sp: Split)
    requires ValidSplit(s, sp) && sp.p == p
    ensures TryTags(s, p).Some?
  {
    var o := sp.a - p;
    TagCases(s, p, sp.a);
    DigitRunCovers(s, sp.a, sp.b);
    TrySeparatorsComplete(s, p, sp.a, sp.b, sp.c, sp.d);
    SeasonDigitsComplete(s, p, sp.a, DigitRun(s, sp.a), sp.b);
    assert AfterTag(s, p, o).Some?;
  }

  lemma {:induction false} TryPrefixComplete(s: string, p: nat, sp: Split)
    requires ValidSplit(s, sp) && p <= sp.p
    ensures TryPrefix(s, p).Some? && TryPrefix(s, p).value.p <= sp.p
    decreases sp.p - p
  {
    if p == sp.p {
      TryTagsComplete(s, p, sp);
    } else if TryTags(s, p).None? {
      TryPrefixComplete(s, p + 1, sp);
    }
  }

  /**
   * Completeness and leftmost choice: whenever the name can be cut into the
   * pattern's parts, the search finds a match, and its leading `.*?` is no
   * longer than that of any other way of cutting the name.
   */
  lemma ExecComplete(s: string, sp: Split)
    requires ValidSplit(s, sp)
    ensures Exec(s).Some? && Exec(s).value.p <= sp.p
  {
    TryPrefixComplete(s, 0, sp);
  }

  lemma ExecCompleteAll(s: string)
    ensures Accepts(s) ==> Exec(s).Some?
  {
    if Accepts(s) {
      var sp :| ValidSplit(s, sp);
      ExecComplete(s, sp);
    }
  }

  /** On "S<digits>E<digits>.mkv" the separator `.` takes the 'E' and the episode group all the digits after it. */
  lemma TaggedSeparator(s: string, m: nat, n: nat)
    requires 0 < m && 0 < n && |s| == m + n + 6 && s[1 + m] == 'E'
    requires DigitsIn(s, 2 + m, 2 + m + n) && ExtensionAt(s, 2 + m + n)
    ensures TrySeparators(s, 0, 1, 1 + m) == Some(Split(0, 1, 1 + m, 2 + m, 2 + m + n))
  {
    DigitRunExact(s, 2 + m, 2 + m + n);
    assert LazyTail(s, 2 + m + n);
    assert EpisodeDigits(s, 0, 1, 1 + m, 2 + m, n) == Some(Split(0, 1, 1 + m, 2 + m, 2 + m + n));
  }

  /**
   * The search cuts a name "S<digits>E<digits>.mkv" (or .mp4) with an empty
   * prefix, the tag "S", all the digits before the 'E' as the season and all
   * the digits after it as the episode.
   */
  lemma ExecTagged(s: string, m: nat, n: nat)
    requires 0 < m && 0 < n && |s| == m + n + 6 && s[0] == 'S' && s[1 + m] == 'E'
    requires DigitsIn(s, 1, 1 + m) && DigitsIn(s, 2 + m, 2 + m + n) && ExtensionAt(s, 2 + m + n)
    ensures Exec(s) == Some(Split(0, 1, 1 + m, 2 + m, 2 + m + n))
  {
    var sp := Split(0, 1, 1 + m, 2 + m, 2 + m + n);
    TaggedSeparator(s, m, n);
    DigitRunExact(s, 1, 1 + m);
    assert SeasonDigits(s, 0, 1, m) == Some(sp);
    assert IsDigit(s[1]) && !SeasonWordAt(s, 0);
    assert TryTags(s, 0) == Some(sp);
  }

  lemma DigitsInAfter(x: string, d: string)
    requires IsDigits(d)
    ensures DigitsIn(x + d, |x|, |x| + |d|) && (x + d)[|x|..] == d
  {
    forall k | |x| <= k < |x| + |d| ensures IsDigit((x + d)[k]) {
      assert (x + d)[k] == d[k - |x|];
    }
  }

  /** Appending text keeps what lies before it. */
  lemma Extend(x: string, y: string, i: nat, j: nat)
    requires i <= j <= |x|
    ensures DigitsIn(x, i, j) ==> DigitsIn(x + y, i, j)
    ensures (x + y)[i..j] == x[i..j]
  {
  }

  lemma ExtensionAtEnd(x: string, ext: string)
    requires ext == ".mkv" || ext == ".mp4"
    ensures ExtensionAt(x + ext, |x|)
  {
    var s := x + ext;
    assert s[|x|] == ext[0] && s[|x| + 1] == ext[1] && s[|x| + 2] == ext[2] && s[|x| + 3] == ext[3];
  }

  /** A name "S<ps>E<pe>.mkv" (or .mp4) matches with the groups ps and pe. */
  lemma MatchTaggedName(ps: string, pe: string, ext: string)
    requires 0 < |ps| && IsDigits(ps) && 0 < |pe| && IsDigits(pe) && (ext == ".mkv" || ext == ".mp4")
    ensures Match("S" + ps + "E" + pe + ext) == Some(Captures(ps, pe))
  {
    var s1 := "S" + ps;
    var s2 := s1 + "E";
    var s3 := s2 + pe;
    var s := s3 + ext;
    var m := |ps|;
    var n := |pe|;
    DigitsInAfter("S", ps);
    Extend(s1, "E", 1, 1 + m);
    Extend(s2, pe, 1, 1 + m);
    Extend(s3, ext, 1, 1 + m);
    DigitsInAfter(s2, pe);
    Extend(s3, ext, 2 + m, 2 + m + n);
    ExtensionAtEnd(s3, ext);
    assert s[0] == 'S' && s[1 + m] == 'E';
    ExecTagged(s, m, n);
    assert s1[1..1 + m] == ps;
    assert s3[2 + m..2 + m + n] == pe;
  }

  /** The two named groups of a match. */
  datatype Captures = Captures(season: string, episode: string)

  /** `seasonEpisodeRegex.exec(name)`, reduced to its groups `season` and `episode`. */
  function Match(name: string): Option<Captures>
  {
    ExecSound(name);
    match Exec(name)
    case None => None
    case Some(sp) => Some(Captures(name[sp.a..sp.b], name[sp.c..sp.d]))
  }

  /**
   * The pattern matches exactly the names that can be cut into its parts; a
   * match ends in `.mkv` or `.mp4`, its groups are non-empty digit strings,
   * and they are the season and episode parts of such a cut.
   */
  lemma MatchSpec(name: string)
    ensures Match(name).Some? <==> Accepts(name)
    ensures Match(name).Some? ==>
      |name| >= 4 && IsExtension(name[|name| - 4..]) &&
      |Match(name).value.season| > 0 && IsDigits(Match(name).value.season) &&
      |Match(name).value.episode| > 0 && IsDigits(Match(name).value.episode)
    ensures Match(name).Some? ==>
      exists sp :: ValidSplit(name, sp) && Match(name).value == Captures(name[sp.a..sp.b], name[sp.c..sp.d])
  {
    ExecSound(name);
    ExecCompleteAll(name);
    if Exec(name).Some? {
      var sp := Exec(name).value;
      DigitsInIsDigits(name, sp.a, sp.b);
      DigitsInIsDigits(name, sp.c, sp.d);
    }
  }

  /**
   * The one-character separator is any character: "1x02.mkv" is read as
   * season "1" and episode "02", with the 'x' taken by `.`.
   */
  lemma CrossSeparatedName()
    ensures Match("1x02.mkv") == Some(Captures("1", "02"))
  {
    var s := "1x02.mkv";
    assert ExtensionAt(s, 4);
    assert DigitRun(s, 4) == 0;
    assert DigitRun(s, 2) == 2;
    assert DigitRun(s, 1) == 0;
    assert DigitRun(s, 0) == 1;
    assert EpisodeDigits(s, 0, 0, 1, 2, 2) == Some(Split(0, 0, 1, 2, 4));
    assert TrySeparators(s, 0, 0, 1) == Some(Split(0, 0, 1, 2, 4));
    assert AfterTag(s, 0, 0) == Some(Split(0, 0, 1, 2, 4));
    assert TryTags(s, 0) == Some(Split(0, 0, 1, 2, 4));
    assert s[0..1] == "1" && s[2..4] == "02";
  }

  /** No attempt at p can start: p holds no digit, no season word, and a leading s/S is not followed by a digit. */
  lemma NoTagAt(s: string, p: nat)
    requires p < |s| && !IsDigit(s[p]) && !SeasonWordAt(s, p)
    requires (s[p] == 's' || s[p] == 'S') && p + 1 < |s| ==> !IsDigit(s[p + 1])
    ensures TryTags(s, p) == None
  {
    assert DigitRun(s, p) == 0;
    if (s[p] == 's' || s[p] == 'S') {
      assert DigitRun(s, p + 1) == 0;
    }
  }

  /** When no attempt at p succeeds, the lazy prefix takes one more character. */
  lemma LazyPrefixStep(s: string, p: nat)
    requires p < |s| && TryTags(s, p) == None && !IsLineTerminator(s[p])
    ensures TryPrefix(s, p) == TryPrefix(s, p + 1)
  {
  }

  /** A name with a year before its tag. */
  const YearName: string := "Show 2019 S01E02.mkv"

  lemma YearNameTail(s: string)
    requires s == YearName
    ensures LazyTail(s, 9)
  {
    assert |s| == 20;
    assert ExtensionAt(s, 16);
    ExtensionAtIsExtension(s, 16);
    assert TailOk(s, 9);
    LazyTailMatches(s, 9);
  }

  lemma YearNameAtFive(s: string)
    requires s == YearName
    ensures TryTags(s, 5) == Some(Split(5, 5, 8, 8, 9))
  {
    YearNameTail(s);
    assert DigitRun(s, 10) == 0 && DigitRun(s, 9) == 0;
    assert DigitRun(s, 8) == 1;
    assert DigitRun(s, 5) == 4;
    assert TrySeparators(s, 5, 5, 9) == None;
    assert TrySeparators(s, 5, 5, 8) == Some(Split(5, 5, 8, 8, 9));
  }

  lemma YearNamePrefix(s: string)
    requires s == YearName
    ensures TryPrefix(s, 0) == TryPrefix(s, 5)
  {
    assert s[0] == 'S' && s[1] == 'h' && s[2] == 'o' && s[3] == 'w' && s[4] == ' ' && s[5] == '2';
    NoTagAt(s, 0);
    LazyPrefixStep(s, 0);
    NoTagAt(s, 1);
    LazyPrefixStep(s, 1);
    NoTagAt(s, 2);
    LazyPrefixStep(s, 2);
    NoTagAt(s, 3);
    LazyPrefixStep(s, 3);
    NoTagAt(s, 4);
    LazyPrefixStep(s, 4);
  }

  /**
   * A number before the tag is taken for the season and episode: in
   * "Show 2019 S01E02.mkv" the leftmost match reads season "201" and episode
   * "9" out of the year, and the tag is left to the tail.
   */
  lemma YearInName(s: string)
    requires s == YearName
    ensures Match(s) == Some(Captures("201", "9"))
  {
    var season := s[5..8];
    var episode := s[8..9];
    assert |season| == 3 && season[0] == '2' && season[1] == '0' && season[2] == '1';
    assert season == "201";
    assert |episode| == 1 && episode[0] == '9';
    assert episode == "9";
    YearNamePrefix(s);
    YearNameAtFive(s);
    assert Exec(s) == Some(Split(5, 5, 8, 8, 9));
  }
}
