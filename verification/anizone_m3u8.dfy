/**
 * The master-playlist reading of `parseM3U8Playlist` in the AniZone
 * provider. The playlist text is split into lines; every line that starts
 * with the `#EXT-X-STREAM-INF` tag (section 4.3.4.2 of RFC 8216) and carries
 * a `RESOLUTION=WxH` attribute is paired with the line after it, which gives
 * the variant's URL. Variants are keyed by `H + "p"`, a later variant
 * overwriting an earlier one with the same key, and `auto` is set to the
 * variant of greatest height. Anything that throws gives a single `auto`
 * entry pointing back at the master playlist.
 */
module AniZoneM3U8 {
  import opened Wrappers
  import opened Strings

  /** A quality variant: its media-playlist URL, its `WxH` resolution and its `BANDWIDTH`, when present. */
  datatype Variant = Variant(url: string, resolution: string, bandwidth: Option<nat>)

  /**
   * The `variants` object: its keys in insertion order (the order
   * `Object.keys` reports for keys that are not array indices) and the
   * value of each key.
   */
  datatype Table = Table(keys: seq<string>, values: map<string, Variant>)

  ghost predicate Distinct(keys: seq<string>) {
    forall i, j :: 0 <= i < j < |keys| ==> keys[i] != keys[j]
  }

  /** Every key is listed once, and the listed keys are the keys that have a value. */
  ghost predicate WellFormed(t: Table) {
    Distinct(t.keys) && forall k :: k in t.values <==> k in t.keys
  }

  const Empty: Table := Table([], map[])

  /** `t[key] = v`: a new key goes last, an existing key keeps its place and takes the new value. */
  function Put(t: Table, key: string, v: Variant): Table {
    if key in t.values then Table(t.keys, t.values[key := v])
    else Table(t.keys + [key], t.values[key := v])
  }

  /** Setting a key keeps a table well formed, and the keys with a value are the old ones and `key`. */
  lemma PutWellFormed(t: Table, key: string, v: Variant)
    requires WellFormed(t)
    ensures WellFormed(Put(t, key, v))
    ensures forall k :: k in Put(t, key, v).values <==> k == key || k in t.values
  {
  }

  // ---------------------------------------------------------------- the two attribute regexes

  /** The regexes `RESOLUTION=(\d+)x(\d+)` and `BANDWIDTH=(\d+)`. */
  datatype Attribute = Resolution | Bandwidth

  function AttributeName(a: Attribute): string {
    match a
    case Resolution => "RESOLUTION="
    case Bandwidth => "BANDWIDTH="
  }

  /**
   * The regex `name(\d+)`, or `name(\d+)x(\d+)` when `pair` holds, tried at
   * position `k` of `line`, giving its captures (the second one empty
   * without `pair`). As `\d+` is greedy and `x` is not a digit, each capture
   * is a whole run of digits.
   */
  function MatchAt(name: string, pair: bool, line: string, k: nat): (r: Option<(string, string)>)
    requires k <= |line|
    ensures r.Some? ==> AllDigits(r.value.0) && AllDigits(r.value.1)
    ensures r.Some? ==> r.value.0 != [] && (pair <==> r.value.1 != [])
  {
    if !OccursAt(line, name, k) then None
    else
      var first := LeadingDigits(line[k + |name|..]);
      var j := k + |name| + |first|;
      if first == [] then None
      else if !pair then Some((first, ""))
      else if j < |line| && line[j] == 'x' && LeadingDigits(line[j + 1..]) != [] then
        Some((first, LeadingDigits(line[j + 1..])))
      else None
  }

  /** The regex tried at every position of `line`, the end included. */
  function Attempts(name: string, pair: bool, line: string): (r: seq<Option<(string, string)>>)
    ensures |r| == |line| + 1 && forall k :: 0 <= k <= |line| ==> r[k] == MatchAt(name, pair, line, k)
  {
    seq(|line| + 1, k requires 0 <= k <= |line| => MatchAt(name, pair, line, k))
  }

  /** The first position at or after `k` where an attempt succeeds. */
  function FirstSome<T>(attempts: seq<Option<T>>, k: nat): Option<nat>
    requires k <= |attempts|
    decreases |attempts| - k
  {
    if k == |attempts| then None
    else if attempts[k].Some? then Some(k)
    else FirstSome(attempts, k + 1)
  }

  /** `FirstSome` finds a success, and there is none between `k` and it; `None` means there is none at all. */
  lemma {:induction false} FirstSomeFacts<T>(attempts: seq<Option<T>>, k: nat)
    requires k <= |attempts|
    ensures var r := FirstSome(attempts, k);
            && (r.Some? ==> k <= r.value < |attempts| && attempts[r.value].Some?)
            && (r.Some? ==> forall j :: k <= j < r.value ==> attempts[j].None?)
            && (r.None? ==> forall j :: k <= j < |attempts| ==> attempts[j].None?)
    decreases |attempts| - k
  {
    if k < |attempts| && attempts[k].None? {
      FirstSomeFacts(attempts, k + 1);
    }
  }

  /** A success at `m` with none between `k` and `m` is the one `FirstSome` finds. */
  lemma {:induction false} FirstSomeLeftmost<T>(attempts: seq<Option<T>>, k: nat, m: nat)
    requires k <= m < |attempts| && attempts[m].Some?
    requires forall j :: k <= j < m ==> attempts[j].None?
    ensures FirstSome(attempts, k) == Some(m)
    decreases m - k
  {
    if k < m {
      FirstSomeLeftmost(attempts, k + 1, m);
    }
  }

  /** The position of the leftmost match. */
  function MatchIndex(name: string, pair: bool, line: string): Option<nat> {
    FirstSome(Attempts(name, pair, line), 0)
  }

  /** `line.match(regex)`: the captures of the leftmost match, or `null`. */
  function Find(name: string, pair: bool, line: string): (r: Option<(string, string)>)
    ensures r.Some? ==> AllDigits(r.value.0) && AllDigits(r.value.1)
    ensures r.Some? ==> r.value.0 != [] && (pair <==> r.value.1 != [])
  {
    var attempts := Attempts(name, pair, line);
    match FirstSome(attempts, 0)
    case None => None
    case Some(k) =>
      FirstSomeFacts(attempts, 0);
      attempts[k]
  }

  /** `line.match(regex)` for one of the two attributes. */
  function Match(a: Attribute, line: string): (r: Option<(string, string)>)
    ensures r.Some? ==> AllDigits(r.value.0) && AllDigits(r.value.1)
    ensures r.Some? ==> r.value.0 != [] && (a == Resolution <==> r.value.1 != [])
  {
    Find(AttributeName(a), a == Resolution, line)
  }

  /** The result is the match at the leftmost position where the regex matches, and `null` when it matches nowhere. */
  lemma FindLeftmost(name: string, pair: bool, line: string)
    ensures var r := MatchIndex(name, pair, line);
            && (r.Some? ==> r.value <= |line| && Find(name, pair, line) == MatchAt(name, pair, line, r.value))
            && (r.Some? ==> MatchAt(name, pair, line, r.value).Some?)
            && (r.Some? ==> forall j :: 0 <= j < r.value ==> MatchAt(name, pair, line, j).None?)
            && (r.None? ==> Find(name, pair, line).None?)
            && (r.None? ==> forall j :: 0 <= j <= |line| ==> MatchAt(name, pair, line, j).None?)
  {
    var attempts := Attempts(name, pair, line);
    FirstSomeFacts(attempts, 0);
    var r := MatchIndex(name, pair, line);
    if r.Some? {
      forall j | 0 <= j < r.value ensures MatchAt(name, pair, line, j).None? {
        assert attempts[j] == MatchAt(name, pair, line, j);
      }
    } else {
      forall j | 0 <= j <= |line| ensures MatchAt(name, pair, line, j).None? {
        assert attempts[j] == MatchAt(name, pair, line, j);
      }
    }
  }

  /** The text a match covers: the name, the digits and, for a pair, the `x` and the second digits. */
  function MatchText(name: string, pair: bool, captures: (string, string)): string {
    if pair then name + captures.0 + "x" + captures.1 else name + captures.0
  }

  /** A match at `k` covers its text there, and the text is not followed by a digit. */
  lemma {:induction false} MatchAtText(name: string, pair: bool, line: string, k: nat)
    requires k <= |line| && MatchAt(name, pair, line, k).Some?
    ensures var text := MatchText(name, pair, MatchAt(name, pair, line, k).value);
            && OccursAt(line, text, k)
            && (k + |text| == |line| || !IsDigit(line[k + |text|]))
  {
    var (w, h) := MatchAt(name, pair, line, k).value;
    MatchAtParts(name, pair, line, k);
    if pair {
      DigitsText(line, name + w + "x", h, k);
    } else {
      DigitsText(line, name, w, k);
    }
  }

  /** The pieces a match at `k` is made of. */
  lemma MatchAtParts(name: string, pair: bool, line: string, k: nat)
    requires k <= |line| && MatchAt(name, pair, line, k).Some?
    ensures var (w, h) := MatchAt(name, pair, line, k).value;
            var i := k + |name|;
            && OccursAt(line, name, k) && w == LeadingDigits(line[i..])
            && (pair ==> i + |w| < |line| && line[i + |w|] == 'x' && h == LeadingDigits(line[i + |w| + 1..]))
            && (pair ==> OccursAt(line, name + w + "x", k))
  {
    var (w, h) := MatchAt(name, pair, line, k).value;
    var i := k + |name|;
    if pair {
      DigitRunOccurs(line, i);
      OccursConcat(line, name, w, k);
      assert OccursAt(line, "x", i + |w|) by {
        assert line[i + |w|..i + |w| + 1] == [line[i + |w|]];
      }
      OccursConcat(line, name + w, "x", k);
    }
  }

  /** After an occurrence of `p` at `k`, the digit run there extends it to an occurrence that no digit follows. */
  lemma DigitsText(line: string, p: string, d: string, k: nat)
    requires OccursAt(line, p, k) && d == LeadingDigits(line[k + |p|..])
    ensures OccursAt(line, p + d, k) && (k + |p + d| == |line| || !IsDigit(line[k + |p + d|]))
  {
    DigitRunOccurs(line, k + |p|);
    OccursConcat(line, p, d, k);
  }

  /**
   * A match is an occurrence of its text whose captures are whole digit runs;
   * by `FindLeftmost`, no match starts further left.
   */
  lemma MatchFound(a: Attribute, line: string)
    requires Match(a, line).Some?
    ensures var name, pair := AttributeName(a), a == Resolution;
            var k := MatchIndex(name, pair, line);
            var text := MatchText(name, pair, Match(a, line).value);
            && k.Some?
            && OccursAt(line, text, k.value)
            && (k.value + |text| == |line| || !IsDigit(line[k.value + |text|]))
  {
    var name, pair := AttributeName(a), a == Resolution;
    FindLeftmost(name, pair, line);
    MatchAtText(name, pair, line, MatchIndex(name, pair, line).value);
  }

  /** The digit run at `i` occurs there and is not followed by a digit. */
  lemma DigitRunOccurs(line: string, i: nat)
    requires i <= |line|
    ensures OccursAt(line, LeadingDigits(line[i..]), i)
    ensures var e := i + |LeadingDigits(line[i..])|; e == |line| || !IsDigit(line[e])
  {
    var d := LeadingDigits(line[i..]);
    LeadingDigitsFacts(line[i..]);
    assert line[i..][..|d|] == line[i..i + |d|];
    assert i + |d| < |line| ==> line[i + |d|] == line[i..][|d|];
  }

  /** An occurrence of a match text whose captures are whole digit runs is a match there. */
  lemma {:induction false} MatchAtOfText(name: string, pair: bool, line: string, captures: (string, string), k: nat)
    requires captures.0 != [] && AllDigits(captures.0) && AllDigits(captures.1)
    requires pair ==> captures.1 != []
    requires !pair ==> captures.1 == []
    requires OccursAt(line, MatchText(name, pair, captures), k)
    requires k + |MatchText(name, pair, captures)| == |line| || !IsDigit(line[k + |MatchText(name, pair, captures)|])
    ensures MatchAt(name, pair, line, k) == Some(captures)
  {
    var (w, h) := captures;
    var i := k + |name|;
    if pair {
      assert OccursAt(line, name, k) && OccursAt(line, w, i) && OccursAt(line, h, i + |w| + 1)
             && line[i + |w|] == 'x' by {
        OccursSplit(line, name + w + "x", h, k);
        OccursSplit(line, name + w, "x", k);
        OccursSplit(line, name, w, k);
        assert line[i + |w|..i + |w| + 1][0] == line[i + |w|];
      }
      PairAtOfText(name, line, w, h, k);
    } else {
      assert OccursAt(line, name, k) && OccursAt(line, w, i) by {
        OccursSplit(line, name, w, k);
      }
      SingleAtOfText(name, line, w, k);
    }
  }

  lemma {:induction false} SingleAtOfText(name: string, line: string, w: string, k: nat)
    requires w != [] && AllDigits(w)
    requires OccursAt(line, name, k) && OccursAt(line, w, k + |name|)
    requires k + |name| + |w| == |line| || !IsDigit(line[k + |name| + |w|])
    ensures MatchAt(name, false, line, k) == Some((w, ""))
  {
    DigitRunAt(line, k + |name|, w);
  }

  lemma {:induction false} PairAtOfText(name: string, line: string, w: string, h: string, k: nat)
    requires w != [] && AllDigits(w) && h != [] && AllDigits(h)
    requires OccursAt(line, name, k) && OccursAt(line, w, k + |name|)
    requires k + |name| + |w| < |line| && line[k + |name| + |w|] == 'x'
    requires OccursAt(line, h, k + |name| + |w| + 1)
    requires var e := k + |name| + |w| + 1 + |h|; e == |line| || !IsDigit(line[e])
    ensures MatchAt(name, true, line, k) == Some((w, h))
  {
    var j := k + |name| + |w|;
    assert LeadingDigits(line[k + |name|..]) == w by {
      DigitRunAt(line, k + |name|, w);
    }
    assert LeadingDigits(line[j + 1..]) == h by {
      DigitRunAt(line, j + 1, h);
    }
  }

  /**
   * Conversely, an occurrence of a match text whose captures are whole digit
   * runs is the match, unless a match starts further left.
   */
  lemma FindOfOccurrence(name: string, pair: bool, line: string, captures: (string, string), k: nat)
    requires captures.0 != [] && AllDigits(captures.0) && AllDigits(captures.1)
    requires pair <==> captures.1 != []
    requires var text := MatchText(name, pair, captures);
             OccursAt(line, text, k) && (k + |text| == |line| || !IsDigit(line[k + |text|]))
    requires forall j :: 0 <= j < k ==> MatchAt(name, pair, line, j).None?
    ensures Find(name, pair, line) == Some(captures)
  {
    MatchAtOfText(name, pair, line, captures, k);
    var attempts := Attempts(name, pair, line);
    forall j | 0 <= j < k ensures attempts[j].None? {
      assert attempts[j] == MatchAt(name, pair, line, j);
    }
    FirstSomeLeftmost(attempts, 0, k);
  }

  /** A digit run occurring at `i` and not followed by a digit is what `LeadingDigits` finds there. */
  lemma DigitRunAt(line: string, i: nat, d: string)
    requires AllDigits(d) && OccursAt(line, d, i)
    requires i + |d| == |line| || !IsDigit(line[i + |d|])
    ensures LeadingDigits(line[i..]) == d
  {
    assert line[i..][..|d|] == line[i..i + |d|];
    assert i + |d| < |line| ==> line[i..][|d|] == line[i + |d|];
    DigitRunPrefix(line[i..], d);
  }

  /** `LeadingDigits` finds a whole digit run at the start of a string. */
  lemma {:induction false} DigitRunPrefix(s: string, d: string)
    requires AllDigits(d) && |d| <= |s| && s[..|d|] == d
    requires |d| == |s| || !IsDigit(s[|d|])
    ensures LeadingDigits(s) == d
  {
    if d != [] {
      assert s[0] == d[0];
      assert s[1..][..|d| - 1] == d[1..];
      DigitRunPrefix(s[1..], d[1..]);
    }
  }

  // ---------------------------------------------------------------- one line of the loop

  const StreamInfTag: string := "#EXT-X-STREAM-INF"

  /** What the loop body does with one line: nothing, set a variant, or throw. */
  datatype Step = Skip | Add(key: string, variant: Variant) | Throw

  /**
   * The loop body for line `i`. `resolve(url, base)` stands for
   * `new URL(url, base).href`; it is `None` when that constructor throws.
   * The next line is taken as the URL whenever it is not empty, even when it
   * is itself a tag.
   */
  function StepAt(lines: seq<string>, i: nat, m3u8Url: string, resolve: (string, string) -> Option<string>): Step
    requires i < |lines|
  {
    var line := lines[i];
    if !StartsWith(line, StreamInfTag) then Skip
    else match Match(Resolution, line)
      case None => Skip
      case Some((w, h)) =>
        if i + 1 >= |lines| || lines[i + 1] == "" then Skip
        else
          var url := Trim(lines[i + 1]);
          var full := if StartsWith(url, "http") then Some(url) else resolve(url, m3u8Url);
          if full.None? then Throw
          else
            var bandwidth := match Match(Bandwidth, line)
              case None => None
              case Some((b, _)) => Some(DigitsValue(b));
            Add(h + "p", Variant(full.value, w + "x" + h, bandwidth))
  }

  /**
   * A variant's key is its height followed by `p`, its resolution is `WxH`,
   * and its bandwidth is the `BANDWIDTH` number of the tag line, or `null`
   * when the line has none.
   */
  lemma StepShape(lines: seq<string>, i: nat, m3u8Url: string, resolve: (string, string) -> Option<string>)
    requires i < |lines|
    requires StepAt(lines, i, m3u8Url, resolve).Add?
    ensures var s := StepAt(lines, i, m3u8Url, resolve);
            var h := s.key[..|s.key| - 1];
            && |s.key| >= 2 && s.key[|s.key| - 1] == 'p' && AllDigits(h)
            && StartsWith(lines[i], StreamInfTag)
            && Match(Resolution, lines[i]).Some? && Match(Resolution, lines[i]).value.1 == h
            && s.variant.resolution == Match(Resolution, lines[i]).value.0 + "x" + h
            && Height(s.key) == DigitsValue(h)
            && s.variant.bandwidth == (if Match(Bandwidth, lines[i]).Some?
                                       then Some(DigitsValue(Match(Bandwidth, lines[i]).value.0)) else None)
  {
    var s := StepAt(lines, i, m3u8Url, resolve);
    var h := Match(Resolution, lines[i]).value.1;
    assert s.key == h + "p" && s.key[..|s.key| - 1] == h;
    DigitRunPrefix(s.key, h);
  }

  /**
   * The URL of a variant is the trimmed next line when that starts with
   * `http`, and the next line resolved against the playlist URL otherwise;
   * the line throws exactly when that resolution fails.
   */
  lemma StepUrl(lines: seq<string>, i: nat, m3u8Url: string, resolve: (string, string) -> Option<string>)
    requires i < |lines|
    requires StartsWith(lines[i], StreamInfTag) && Match(Resolution, lines[i]).Some?
    requires i + 1 < |lines| && lines[i + 1] != ""
    ensures var url := Trim(lines[i + 1]);
            var s := StepAt(lines, i, m3u8Url, resolve);
            && (StartsWith(url, "http") ==> s.Add? && s.variant.url == url)
            && (!StartsWith(url, "http") ==> (s.Throw? <==> resolve(url, m3u8Url).None?))
            && (!StartsWith(url, "http") && s.Add? ==> s.variant.url == resolve(url, m3u8Url).value)
  {
  }

  /** A line that is not a stream-info tag, or has no resolution, or no non-empty next line, sets nothing. */
  lemma StepSkips(lines: seq<string>, i: nat, m3u8Url: string, resolve: (string, string) -> Option<string>)
    requires i < |lines|
    ensures StepAt(lines, i, m3u8Url, resolve).Skip?
            <==> !StartsWith(lines[i], StreamInfTag) || Match(Resolution, lines[i]).None?
                 || i + 1 == |lines| || lines[i + 1] == ""
  {
  }

  // ---------------------------------------------------------------- the loop

  /** The loop body's outcome for every line. */
  function Steps(lines: seq<string>, m3u8Url: string, resolve: (string, string) -> Option<string>): (r: seq<Step>)
    ensures |r| == |lines|
  {
    StepsFrom(lines, 0, m3u8Url, resolve)
  }

  /** The loop body's outcome for line `i` and every line after it. */
  function StepsFrom(lines: seq<string>, i: nat, m3u8Url: string, resolve: (string, string) -> Option<string>): (r: seq<Step>)
    requires i <= |lines|
    ensures |r| == |lines| - i
    decreases |lines| - i
  {
    if i == |lines| then [] else [StepAt(lines, i, m3u8Url, resolve)] + StepsFrom(lines, i + 1, m3u8Url, resolve)
  }

  /** Entry `j` of the outcomes is the outcome of line `j`. */
  lemma StepsAt(lines: seq<string>, m3u8Url: string, resolve: (string, string) -> Option<string>, j: nat)
    requires j < |lines|
    ensures Steps(lines, m3u8Url, resolve)[j] == StepAt(lines, j, m3u8Url, resolve)
  {
    StepsFromAt(lines, 0, m3u8Url, resolve, j);
  }

  lemma {:induction false} StepsFromAt(lines: seq<string>, i: nat, m3u8Url: string, resolve: (string, string) -> Option<string>, j: nat)
    requires i <= j < |lines|
    ensures StepsFrom(lines, i, m3u8Url, resolve)[j - i] == StepAt(lines, j, m3u8Url, resolve)
    decreases j - i
  {
    if i < j {
      StepsFromAt(lines, i + 1, m3u8Url, resolve, j);
    }
  }

  /** The `variants` object after the loop body has run for the first `n` steps; `None` once one has thrown. */
  function Apply(steps: seq<Step>, n: nat): Option<Table>
    requires n <= |steps|
  {
    if n == 0 then Some(Empty)
    else match Apply(steps, n - 1)
      case None => None
      case Some(t) =>
        match steps[n - 1]
        case Skip => Some(t)
        case Add(k, v) => Some(Put(t, k, v))
        case Throw => None
  }

  /** `parseInt(key)` for a key that starts with digits. */
  function Height(key: string): nat {
    DigitsValue(LeadingDigits(key))
  }

  /**
   * The position of the first key of greatest height among `keys[..n]`:
   * the head of the keys sorted by decreasing height with a stable sort.
   */
  function BestIndex(keys: seq<string>, n: nat): (b: nat)
    requires 0 < n <= |keys|
    ensures b < n
    ensures forall j :: 0 <= j < n ==> Height(keys[j]) <= Height(keys[b])
    ensures forall j :: 0 <= j < b ==> Height(keys[j]) < Height(keys[b])
  {
    if n == 1 then 0
    else
      var b := BestIndex(keys, n - 1);
      if Height(keys[n - 1]) > Height(keys[b]) then n - 1 else b
  }

  const Auto: string := "auto"

  /** `variants.auto = variants[qualities[0]]`, done only when there is at least one variant. */
  function WithAuto(t: Table): Table
    requires WellFormed(t)
  {
    if t.keys == [] then t
    else Put(t, Auto, t.values[t.keys[BestIndex(t.keys, |t.keys|)]])
  }

  /** What the `catch` block returns. */
  function Fallback(m3u8Url: string): Table {
    Table([Auto], map[Auto := Variant(m3u8Url, "unknown", None)])
  }

  function Lines(text: string): seq<string> {
    Split(text, '\n')
  }

  /**
   * What `parseM3U8Playlist(m3u8Url)` returns. `playlist` is the fetched
   * text, `None` when the fetch or the reading of the body fails.
   */
  function Playlist(m3u8Url: string, playlist: Option<string>, resolve: (string, string) -> Option<string>): Table {
    match playlist
    case None => Fallback(m3u8Url)
    case Some(text) =>
      var steps := Steps(Lines(text), m3u8Url, resolve);
      match Apply(steps, |steps|)
      case None => Fallback(m3u8Url)
      case Some(t) =>
        ApplyWellFormed(steps, |steps|);
        WithAuto(t)
  }

  /** The body of the `for` loop for line `i`: what it writes into `variants`, or that it throws. */
  method ReadLine(lines: seq<string>, i: nat, m3u8Url: string, resolve: (string, string) -> Option<string>)
    returns (step: Step)
    requires i < |lines|
    ensures step == Steps(lines, m3u8Url, resolve)[i]
  {
    StepsAt(lines, m3u8Url, resolve, i);
    var line := lines[i];
    if !StartsWith(line, StreamInfTag) {
      return Skip;
    }
    var resolutionMatch := Match(Resolution, line);
    var bandwidthMatch := Match(Bandwidth, line);
    if resolutionMatch.None? || i + 1 >= |lines| || lines[i + 1] == "" {
      return Skip;
    }
    var height := resolutionMatch.value.1;
    var quality := height + "p";
    var url := Trim(lines[i + 1]);
    var fullUrl: string;
    if StartsWith(url, "http") {
      fullUrl := url;
    } else {
      var resolved := resolve(url, m3u8Url);
      if resolved.None? {
        return Throw;
      }
      fullUrl := resolved.value;
    }
    var bandwidth := if bandwidthMatch.Some? then Some(DigitsValue(bandwidthMatch.value.0)) else None;
    step := Add(quality, Variant(fullUrl, resolutionMatch.value.0 + "x" + height, bandwidth));
  }

  /** `parseM3U8Playlist`, from the fetched text on. */
  method ParsePlaylist(m3u8Url: string, playlist: Option<string>, resolve: (string, string) -> Option<string>)
    returns (variants: Table)
    ensures variants == Playlist(m3u8Url, playlist, resolve)
  {
    if playlist.None? {
      return Fallback(m3u8Url);
    }
    var lines := Lines(playlist.value);
    ghost var steps := Steps(lines, m3u8Url, resolve);
    var keys: seq<string> := [];
    var values: map<string, Variant> := map[];
    for i := 0 to |lines|
      invariant Apply(steps, i) == Some(Table(keys, values))
    {
      var step := ReadLine(lines, i, m3u8Url, resolve);
      match step
      case Skip =>
      case Throw =>
        FailureIsFinal(steps, i + 1, |steps|);
        return Fallback(m3u8Url);
      case Add(quality, v) =>
        if quality !in values {
          keys := keys + [quality];
        }
        values := values[quality := v];
    }
    PlaylistOfLoop(m3u8Url, playlist.value, resolve, Table(keys, values));
    variants := AddAuto(keys, values);
  }

  /** The `qualities[0]` block: `auto` is added when there is at least one variant. */
  method AddAuto(keys: seq<string>, values: map<string, Variant>) returns (t: Table)
    requires WellFormed(Table(keys, values))
    ensures t == WithAuto(Table(keys, values))
  {
    t := Table(keys, values);
    if |keys| > 0 {
      var best := keys[BestIndex(keys, |keys|)];
      var newKeys := if Auto in values then keys else keys + [Auto];
      t := Table(newKeys, values[Auto := values[best]]);
    }
  }

  /** When no line throws, the result is the loop's table with `auto` added. */
  lemma PlaylistOfLoop(m3u8Url: string, text: string, resolve: (string, string) -> Option<string>, t: Table)
    requires Apply(Steps(Lines(text), m3u8Url, resolve), |Lines(text)|) == Some(t)
    ensures WellFormed(t) && Playlist(m3u8Url, Some(text), resolve) == WithAuto(t)
  {
    ApplyWellFormed(Steps(Lines(text), m3u8Url, resolve), |Lines(text)|);
  }

  // ---------------------------------------------------------------- properties of the loop

  /** The loop keeps `variants` well formed. */
  lemma {:induction false} ApplyWellFormed(steps: seq<Step>, n: nat)
    requires n <= |steps|
    ensures Apply(steps, n).Some? ==> WellFormed(Apply(steps, n).value)
  {
    if n > 0 {
      ApplyWellFormed(steps, n - 1);
      if Apply(steps, n - 1).Some? && steps[n - 1].Add? {
        PutWellFormed(Apply(steps, n - 1).value, steps[n - 1].key, steps[n - 1].variant);
      }
    }
  }

  /** Once a step has thrown, the loop's outcome stays a failure. */
  lemma {:induction false} FailureIsFinal(steps: seq<Step>, n: nat, m: nat)
    requires n <= m <= |steps| && Apply(steps, n).None?
    ensures Apply(steps, m).None?
    decreases m
  {
    if m > n {
      FailureIsFinal(steps, n, m - 1);
    }
  }

  /** The loop fails exactly when one of its steps throws. */
  lemma {:induction false} ApplyFails(steps: seq<Step>, n: nat)
    requires n <= |steps|
    ensures Apply(steps, n).None? <==> exists i :: 0 <= i < n && steps[i].Throw?
  {
    if n > 0 {
      ApplyFails(steps, n - 1);
    }
  }

  /** A key made of a height and `p`. */
  predicate QualityKey(k: string) {
    |k| >= 2 && k[|k| - 1] == 'p' && AllDigits(k[..|k| - 1])
  }

  /** Every key a line sets is a quality key. */
  lemma StepsKeys(lines: seq<string>, m3u8Url: string, resolve: (string, string) -> Option<string>)
    ensures var steps := Steps(lines, m3u8Url, resolve);
            forall i :: 0 <= i < |steps| && steps[i].Add? ==> QualityKey(steps[i].key)
  {
    var steps := Steps(lines, m3u8Url, resolve);
    forall i | 0 <= i < |steps| && steps[i].Add?
      ensures QualityKey(steps[i].key)
    {
      StepsAt(lines, m3u8Url, resolve, i);
      StepShape(lines, i, m3u8Url, resolve);
    }
  }

  /** When every step sets only quality keys, so does the loop, and `auto` is not among them. */
  lemma {:induction false} ApplyKeys(steps: seq<Step>, n: nat)
    requires n <= |steps| && Apply(steps, n).Some?
    requires forall i :: 0 <= i < |steps| && steps[i].Add? ==> QualityKey(steps[i].key)
    ensures forall k :: k in Apply(steps, n).value.keys ==> QualityKey(k)
    ensures Auto !in Apply(steps, n).value.values
  {
    if n > 0 {
      ApplyKeys(steps, n - 1);
    }
    assert !QualityKey(Auto);
  }

  /** The last of the first `n` steps that sets `key`. */
  function LastAdd(steps: seq<Step>, n: nat, key: string): (r: Option<nat>)
    requires n <= |steps|
    ensures r.Some? ==> r.value < n && steps[r.value].Add? && steps[r.value].key == key
    ensures r.Some? ==> forall j :: r.value < j < n ==> !(steps[j].Add? && steps[j].key == key)
    ensures r.None? ==> forall j :: 0 <= j < n ==> !(steps[j].Add? && steps[j].key == key)
  {
    if n == 0 then None
    else if steps[n - 1].Add? && steps[n - 1].key == key then Some(n - 1)
    else LastAdd(steps, n - 1, key)
  }

  /**
   * The keys set are exactly the keys some step sets, and each holds the
   * variant of the last step that sets it: a later variant of the same
   * height overwrites an earlier one.
   */
  lemma {:induction false} ApplyValues(steps: seq<Step>, n: nat, key: string)
    requires n <= |steps| && Apply(steps, n).Some?
    ensures key in Apply(steps, n).value.values <==> LastAdd(steps, n, key).Some?
    ensures key in Apply(steps, n).value.values ==>
              Apply(steps, n).value.values[key] == steps[LastAdd(steps, n, key).value].variant
  {
    if n > 0 {
      ApplyValues(steps, n - 1, key);
    }
  }

  /** The first of the first `n` steps that sets `key`. */
  function FirstAdd(steps: seq<Step>, n: nat, key: string): (r: Option<nat>)
    requires n <= |steps|
    ensures r.Some? ==> r.value < n && steps[r.value].Add? && steps[r.value].key == key
    ensures r.Some? ==> forall j :: 0 <= j < r.value ==> !(steps[j].Add? && steps[j].key == key)
    ensures r.None? ==> forall j :: 0 <= j < n ==> !(steps[j].Add? && steps[j].key == key)
  {
    if n == 0 then None
    else
      match FirstAdd(steps, n - 1, key)
      case Some(i) => Some(i)
      case None => if steps[n - 1].Add? && steps[n - 1].key == key then Some(n - 1) else None
  }

  /** The keys are listed in the order in which they were first set: an overwrite keeps the key's place. */
  lemma {:induction false} ApplyOrder(steps: seq<Step>, n: nat)
    requires n <= |steps| && Apply(steps, n).Some?
    ensures var t := Apply(steps, n).value;
            forall i :: 0 <= i < |t.keys| ==> FirstAdd(steps, n, t.keys[i]).Some?
    ensures var t := Apply(steps, n).value;
            forall i, j :: 0 <= i < j < |t.keys| ==> FirstAdd(steps, n, t.keys[i]).value < FirstAdd(steps, n, t.keys[j]).value
  {
    if n > 0 {
      ApplyOrder(steps, n - 1);
      var t := Apply(steps, n - 1).value;
      var s := steps[n - 1];
      if s.Add? && s.key !in t.values {
        ApplyValues(steps, n - 1, s.key);
        assert FirstAdd(steps, n, s.key) == Some(n - 1);
      }
    }
  }

  // ---------------------------------------------------------------- properties of the result

  /**
   * The `catch` result is returned exactly when the fetch fails or a line
   * throws; a playlist that parses never looks like it.
   */
  lemma FallbackExactly(m3u8Url: string, playlist: Option<string>, resolve: (string, string) -> Option<string>)
    ensures Playlist(m3u8Url, playlist, resolve) == Fallback(m3u8Url)
            <==> playlist.None?
                 || exists i :: 0 <= i < |Lines(playlist.value)| && StepAt(Lines(playlist.value), i, m3u8Url, resolve).Throw?
  {
    if playlist.Some? {
      var lines := Lines(playlist.value);
      var steps := Steps(lines, m3u8Url, resolve);
      ApplyFails(steps, |steps|);
      forall i | 0 <= i < |lines| ensures steps[i] == StepAt(lines, i, m3u8Url, resolve) {
        StepsAt(lines, m3u8Url, resolve, i);
      }
      var p := Apply(steps, |steps|);
      if p.Some? {
        ApplyWellFormed(steps, |steps|);
        StepsKeys(lines, m3u8Url, resolve);
        ApplyKeys(steps, |steps|);
        var r := WithAuto(p.value);
        assert p.value.keys != [] ==> r.keys == p.value.keys + [Auto];
        assert r.keys != [Auto];
      }
    }
  }

  /** A playlist without a usable stream-info line gives an empty object, without `auto`. */
  lemma NoVariantsNoAuto(m3u8Url: string, text: string, resolve: (string, string) -> Option<string>)
    requires forall i :: 0 <= i < |Lines(text)| ==> StepAt(Lines(text), i, m3u8Url, resolve).Skip?
    ensures Playlist(m3u8Url, Some(text), resolve) == Empty
  {
    var steps := Steps(Lines(text), m3u8Url, resolve);
    forall i | 0 <= i < |steps| ensures steps[i].Skip? {
      StepsAt(Lines(text), m3u8Url, resolve, i);
    }
    ApplyFails(steps, |steps|);
    var t := Apply(steps, |steps|).value;
    ApplyWellFormed(steps, |steps|);
    if t.keys != [] {
      ApplyValues(steps, |steps|, t.keys[0]);
      assert false;
    }
    assert t.values == map[];
  }

  /**
   * When the loop sets at least one variant, the result lists the variant
   * keys followed by `auto`, keeps every variant, and `auto` holds the
   * variant of the first key of greatest height.
   */
  lemma AutoIsHighest(m3u8Url: string, text: string, resolve: (string, string) -> Option<string>)
    requires Apply(Steps(Lines(text), m3u8Url, resolve), |Lines(text)|).Some?
    requires Apply(Steps(Lines(text), m3u8Url, resolve), |Lines(text)|).value.keys != []
    ensures var t := Apply(Steps(Lines(text), m3u8Url, resolve), |Lines(text)|).value;
            var r := Playlist(m3u8Url, Some(text), resolve);
            && r.keys == t.keys + [Auto]
            && (forall k :: k in t.values ==> r.values[k] == t.values[k])
            && exists b :: 0 <= b < |t.keys|
                 && t.keys[b] in t.values && r.values[Auto] == t.values[t.keys[b]]
                 && (forall j :: 0 <= j < |t.keys| ==> Height(t.keys[j]) <= Height(t.keys[b]))
                 && (forall j :: 0 <= j < b ==> Height(t.keys[j]) < Height(t.keys[b]))
  {
    var lines := Lines(text);
    var steps := Steps(lines, m3u8Url, resolve);
    var t := Apply(steps, |steps|).value;
    ApplyWellFormed(steps, |steps|);
    StepsKeys(lines, m3u8Url, resolve);
    ApplyKeys(steps, |steps|);
    var b := BestIndex(t.keys, |t.keys|);
    assert Playlist(m3u8Url, Some(text), resolve).values[Auto] == t.values[t.keys[b]];
  }

  /**
   * Every variant key of the result holds the variant of the last line that
   * sets that key, and every line that sets a variant has its key in the result.
   */
  lemma ResultVariants(m3u8Url: string, text: string, resolve: (string, string) -> Option<string>, key: string)
    requires Apply(Steps(Lines(text), m3u8Url, resolve), |Lines(text)|).Some?
    requires key != Auto
    ensures var steps := Steps(Lines(text), m3u8Url, resolve);
            var r := Playlist(m3u8Url, Some(text), resolve);
            var last := LastAdd(steps, |steps|, key);
            && (key in r.values <==> last.Some?)
            && (key in r.values ==> r.values[key] == steps[last.value].variant)
  {
    var steps := Steps(Lines(text), m3u8Url, resolve);
    var t := Apply(steps, |steps|).value;
    ApplyWellFormed(steps, |steps|);
    assert Playlist(m3u8Url, Some(text), resolve) == WithAuto(t);
    ApplyValues(steps, |steps|, key);
    WithAutoKeeps(t, key);
  }

  /** Adding `auto` leaves every other key as it was. */
  lemma WithAutoKeeps(t: Table, key: string)
    requires WellFormed(t) && key != Auto
    ensures key in WithAuto(t).values <==> key in t.values
    ensures key in t.values ==> WithAuto(t).values[key] == t.values[key]
  {
  }
}
