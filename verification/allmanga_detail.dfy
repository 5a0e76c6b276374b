/**
 * The detail page of the AllManga provider (`getDetail`): title, cover,
 * description, status, genres and the episode list.
 */
module AllMangaDetail {
  import opened Wrappers
  import opened Strings
  import opened AllMangaUrls
  import opened Dom
  import opened Collect

  // ---------------------------------------------------------------- status

  /** The status table of `statusCode`, keyed by lower-case status text. */
  const StatusTable: map<string, nat> := map[
    "ongoing" := 0, "airing" := 0, "releasing" := 0,
    "completed" := 1, "finished" := 1,
    "not yet aired" := 4]

  /** The status code of a status text; text the table does not know is 5 (unknown). */
  function StatusCode(status: string): (r: nat)
    ensures r in {0, 1, 4, 5}
    ensures r == 0 <==> ToLower(status) in {"ongoing", "airing", "releasing"}
    ensures r == 1 <==> ToLower(status) in {"completed", "finished"}
    ensures r == 4 <==> ToLower(status) == "not yet aired"
  {
    var key := ToLower(status);
    if key in StatusTable then StatusTable[key] else 5
  }

  /** Lower-casing is idempotent, so the status code ignores case. */
  lemma StatusCodeIgnoresCase(status: string)
    ensures StatusCode(ToLower(status)) == StatusCode(status)
  {
    ToLowerIdempotent(status);
  }

  lemma StatusCodeExamples()
    ensures StatusCode("Ongoing") == 0
    ensures StatusCode("FINISHED") == 1
    ensures StatusCode("Not Yet Aired") == 4
    ensures StatusCode("") == 5
    ensures StatusCode("Hiatus") == 5
  {
    assert ToLower("Ongoing") == "ongoing";
    assert ToLower("FINISHED") == "finished";
    assert ToLower("Not Yet Aired") == "not yet aired";
    assert ToLower("Hiatus") == "hiatus";
  }

  /**
   * The value the expression `{...}[status] ?? 5` has. A JavaScript object
   * literal also answers for the members it inherits from `Object.prototype`;
   * of these, only `constructor` and `__proto__` are spelt in lower case, so
   * only they can be reached by a lower-cased status text.
   */
  datatype StatusValue = Code(code: nat) | InheritedMember(name: string)

  const InheritedMembers: set<string> := {"constructor", "__proto__"}

  function StatusCodeAsWritten(status: string): (r: StatusValue)
    ensures r.InheritedMember? <==> ToLower(status) in InheritedMembers
  {
    var key := ToLower(status);
    if key in StatusTable then Code(StatusTable[key])
    else if key in InheritedMembers then InheritedMember(key)
    else Code(5)
  }

  /** The status text `Constructor` yields the inherited `Object` constructor instead of 5. */
  lemma StatusCodeAsWrittenOnConstructor()
    ensures StatusCodeAsWritten("Constructor") == InheritedMember("constructor")
    ensures StatusCode("Constructor") == 5
  {
    LowerConstructor();
    assert "constructor" !in StatusTable;
  }

  lemma LowerConstructor()
    ensures ToLower("Constructor") == "constructor"
  {
  }

  /** Away from the two inherited member names, the table lookup as written and the corrected one agree. */
  lemma StatusCodeAgrees(status: string)
    requires ToLower(status) !in InheritedMembers
    ensures StatusCodeAsWritten(status) == Code(StatusCode(status))
  {
  }

  // ---------------------------------------------------------------- title, cover, genres

  /**
   * The title: the heading's trimmed text when the preference is `title`,
   * otherwise its `data-jp` attribute when that is non-empty.
   */
  function DetailTitle(heading: Option<Element>, namePref: string): (r: string)
    ensures heading.None? ==> r == ""
    ensures heading.Some? && (namePref == "title" || !Truthy(Attr(heading.value, "data-jp")))
            ==> r == Trim(heading.value.text)
    ensures heading.Some? && namePref != "title" && Truthy(Attr(heading.value, "data-jp"))
            ==> r == Attr(heading.value, "data-jp").value
  {
    match heading
    case None => ""
    case Some(h) => if namePref == "title" then Trim(h.text) else OrElse(Attr(h, "data-jp"), Trim(h.text))
  }

  lemma DetailTitleExample()
    ensures DetailTitle(Some(Element("Hero", map["data-jp" := "\U{30D2}\U{30FC}\U{30ED}\U{30FC}"])), "data-jp")
            == "\U{30D2}\U{30FC}\U{30ED}\U{30FC}"
    ensures DetailTitle(Some(Element("Hero", map["data-jp" := "\U{30D2}\U{30FC}\U{30ED}\U{30FC}"])), "title") == "Hero"
  {
    TrimOfTrimmed("Hero");
  }

  /**
   * The cover image URL: the `src` of the cover image, normalised when
   * non-empty, and kept as it is (`null` or `""`) otherwise; `""` without a
   * cover.
   */
  function DetailImage(cover: Option<Element>): (r: Option<string>)
    ensures cover.None? ==> r == Some("")
    ensures r.Some? && r.value != "" ==> StartsWith(r.value, "http")
    ensures cover.Some? && Truthy(Attr(cover.value, "src")) ==> r == Some(Absolutize(Attr(cover.value, "src").value))
    ensures cover.Some? && !Truthy(Attr(cover.value, "src")) ==> r == Attr(cover.value, "src") && (r.None? || r.value == "")
  {
    match cover
    case None => Some("")
    case Some(img) =>
      var src := Attr(img, "src");
      if Truthy(src) then Some(Absolutize(src.value)) else src
  }

  /** The genre names: the trimmed texts of the genre anchors, without the empty ones, in page order. */
  function Genres(texts: seq<string>): (r: seq<string>)
    ensures |r| <= |texts|
    ensures forall k :: 0 <= k < |r| ==> r[k] != "" && Trim(r[k]) == r[k]
  {
    if texts == [] then []
    else
      var last := texts[|texts| - 1];
      var g := Trim(last);
      TrimIdempotent(last);
      Genres(texts[..|texts| - 1]) + (if g != "" then [g] else [])
  }

  /** A genre is listed exactly when some anchor's text trims to it. */
  lemma {:induction false} GenresMembers(texts: seq<string>, x: string)
    ensures x in Genres(texts) <==> x != "" && exists i :: 0 <= i < |texts| && Trim(texts[i]) == x
  {
    if texts != [] {
      var init := texts[..|texts| - 1];
      GenresMembers(init, x);
      assert forall i :: 0 <= i < |init| ==> init[i] == texts[i];
      if x != "" && Trim(texts[|texts| - 1]) != x && (exists i :: 0 <= i < |texts| && Trim(texts[i]) == x) {
        var i :| 0 <= i < |texts| && Trim(texts[i]) == x;
        assert Trim(init[i]) == x;
      }
    }
  }

  // ---------------------------------------------------------------- episode numbers

  /** The three regular expressions tried for an episode number, in this order. */
  datatype NumberPattern =
    | UrlEpisode   // `/episode[-_]?(\d+)/i` on the href
    | TextEpisode  // `/episode\s*(\d+)/i` on the name
    | TextEp       // `/ep\s*(\d+)/i` on the name

  function Keyword(p: NumberPattern): string {
    if p == TextEp then "ep" else "episode"
  }

  /** The end of the white-space run that starts at `j`. */
  function SkipSpaces(s: string, j: nat): (k: nat)
    requires j <= |s|
    ensures j <= k <= |s| && (k == |s| || !IsSpace(s[k]))
    ensures forall m :: j <= m < k ==> IsSpace(s[m])
    decreases |s| - j
  {
    if j < |s| && IsSpace(s[j]) then SkipSpaces(s, j + 1) else j
  }

  /** Where the captured digits start when pattern `p` matches at position `i` of `s`. */
  function DigitsStart(p: NumberPattern, s: string, i: nat): (r: Option<nat>)
    ensures r.Some? ==> i < r.value < |s| && IsDigit(s[r.value])
  {
    var kw := Keyword(p);
    if !(i + |kw| <= |s| && EqualsIgnoreCase(s[i..i + |kw|], kw)) then None
    else
      var j := i + |kw|;
      if p == UrlEpisode then
        if j < |s| && IsDigit(s[j]) then Some(j)
        else if j + 1 < |s| && (s[j] == '-' || s[j] == '_') && IsDigit(s[j + 1]) then Some(j + 1)
        else None
      else
        var k := SkipSpaces(s, j);
        if k < |s| && IsDigit(s[k]) then Some(k) else None
  }

  /** The number a match of `p` at position `i` captures: `parseInt` of the greedy digit run. */
  function NumberAt(p: NumberPattern, s: string, i: nat): (r: Option<nat>)
    ensures r.Some? <==> DigitsStart(p, s, i).Some?
  {
    match DigitsStart(p, s, i)
    case None => None
    case Some(d) => Some(DigitsValue(LeadingDigits(s[d..])))
  }

  /** The leftmost position at or after `i` where `p` matches. */
  function MatchIndex(p: NumberPattern, s: string, i: nat): (r: Option<nat>)
    requires i <= |s|
    ensures r.Some? ==> i <= r.value < |s| && DigitsStart(p, s, r.value).Some?
    ensures r.Some? ==> forall m :: i <= m < r.value ==> DigitsStart(p, s, m).None?
    ensures r.None? ==> forall m :: i <= m < |s| ==> DigitsStart(p, s, m).None?
    decreases |s| - i
  {
    if i == |s| then None
    else if DigitsStart(p, s, i).Some? then Some(i)
    else MatchIndex(p, s, i + 1)
  }

  /** `s.match(p)`: the number captured by the leftmost match, if any. */
  function Search(p: NumberPattern, s: string): (r: Option<nat>)
    ensures r.Some? <==> exists k :: 0 <= k < |s| && DigitsStart(p, s, k).Some?
  {
    match MatchIndex(p, s, 0)
    case None => None
    case Some(k) => NumberAt(p, s, k)
  }

  /** The episode number: the first of the three patterns that matches, otherwise the 1-based position. */
  function EpisodeNumber(url: string, name: string, index: nat): (r: nat)
    ensures Search(UrlEpisode, url).Some? ==> r == Search(UrlEpisode, url).value
    ensures Search(UrlEpisode, url).None? && Search(TextEpisode, name).Some?
            ==> r == Search(TextEpisode, name).value
    ensures Search(UrlEpisode, url).None? && Search(TextEpisode, name).None? && Search(TextEp, name).Some?
            ==> r == Search(TextEp, name).value
    ensures Search(UrlEpisode, url).None? && Search(TextEpisode, name).None? && Search(TextEp, name).None?
            ==> r == index + 1
  {
    match Search(UrlEpisode, url)
    case Some(n) => n
    case None =>
      match Search(TextEpisode, name)
      case Some(n) => n
      case None =>
        match Search(TextEp, name)
        case Some(n) => n
        case None => index + 1
  }

  /** A number in the href wins, with `_` between keyword and digits. */
  lemma EpisodeNumberFromUrl()
    ensures EpisodeNumber("/watch/x/Episode_12", "", 0) == 12
  {
    UrlSearchExample();
  }

  lemma UrlSearchExample()
    ensures Search(UrlEpisode, "/watch/x/Episode_12") == Some(12)
  {
    var u := "/watch/x/Episode_12";
    assert u[9..16] == "Episode";
    assert DigitsStart(UrlEpisode, u, 9) == Some(17);
    assert u[..9] == "/watch/x/";
    NoMatchBefore(UrlEpisode, u, 9);
    SearchFinds(UrlEpisode, u, 9);
    assert u[17..] == "12";
    TwelveDigits();
  }

  lemma TwelveDigits()
    ensures DigitsValue(LeadingDigits("12")) == 12
  {
    assert LeadingDigits("12") == "12";
  }

  /** Without a number in the href, `ep` followed by spaces in the text is used. */
  lemma EpisodeNumberFromText()
    ensures EpisodeNumber("/watch/x", "EP  7", 2) == 7
  {
    var t := "EP  7";
    assert t[0..2] == "EP";
    assert SkipSpaces(t, 2) == 4;
    assert DigitsStart(TextEp, t, 0) == Some(4);
    assert t[4..] == "7";
    assert LeadingDigits("7") == "7";
    NoMatchWithout(TextEpisode, t);
    NoMatchWithout(UrlEpisode, "/watch/x");
  }

  /** Without any number, the 1-based position among all links is used. */
  lemma EpisodeNumberFromPosition()
    ensures EpisodeNumber("/watch/x", "Final", 2) == 3
  {
    NoMatchWithout(UrlEpisode, "/watch/x");
    NoMatchWithout(TextEpisode, "Final");
    NoMatchWithout(TextEp, "Final");
  }

  /** The search finds the match at `k` when none starts before it. */
  lemma SearchFinds(p: NumberPattern, s: string, k: nat)
    requires k < |s| && DigitsStart(p, s, k).Some?
    requires forall m :: 0 <= m < k ==> DigitsStart(p, s, m).None?
    ensures Search(p, s) == NumberAt(p, s, k)
  {
  }

  /** No match starts before position `n` when `s[..n]` has no `e` or `E`: both keywords start with `e`. */
  lemma NoMatchBefore(p: NumberPattern, s: string, n: nat)
    requires n <= |s| && 'e' !in s[..n] && 'E' !in s[..n]
    ensures forall m :: 0 <= m < n ==> DigitsStart(p, s, m).None?
  {
    forall m | 0 <= m < n ensures DigitsStart(p, s, m).None? {
      var kw := Keyword(p);
      assert s[m] == s[..n][m];
      if m + |kw| <= |s| {
        assert s[m..m + |kw|][0] == s[m];
      }
    }
  }

  /** A text with no `e` or `E` in it, or shorter than the keyword, matches none of the patterns. */
  lemma NoMatchWithout(p: NumberPattern, s: string)
    requires ('e' !in s && 'E' !in s) || |s| < |Keyword(p)|
    ensures Search(p, s).None?
  {
    if 'e' !in s && 'E' !in s {
      assert s[..|s|] == s;
      NoMatchBefore(p, s, |s|);
    }
  }

  // ---------------------------------------------------------------- episode names and thumbnails

  /**
   * The display name of an episode from its trimmed link text: `Episode N`
   * for an empty or `Watch` text, `Episode N: text` for a text that does not
   * mention an episode, the text itself otherwise.
   */
  function EpisodeName(text: string, num: nat): (r: string)
    ensures Contains(ToLower(r), "episode")
    ensures text == "" || text == "Watch" ==> r == "Episode " + NatToString(num)
    ensures text != "" && text != "Watch" && !Contains(ToLower(text), "episode")
            ==> r == "Episode " + NatToString(num) + ": " + text
    ensures text != "" && text != "Watch" && Contains(ToLower(text), "episode") ==> r == text
  {
    var prefix := "Episode " + NatToString(num);
    ToLowerAppend("Episode ", NatToString(num));
    assert ToLower("Episode ") == "episode ";
    ContainsAt("episode " + ToLower(NatToString(num)), "episode", 0);
    if text == "" || text == "Watch" then prefix
    else if !Contains(ToLower(text), "episode") then
      ToLowerAppend(prefix, ": " + text);
      ContainsInfix([], ToLower(prefix), ToLower(": " + text), "episode");
      assert prefix + ": " + text == prefix + (": " + text);
      prefix + ": " + text
    else text
  }

  /** An episode link: its href (absent for `null`), its text and its first `<img>`. */
  datatype EpisodeLink = EpisodeLink(href: Option<string>, text: string, img: Option<Element>)

  /** An episode of the list; `thumbnailUrl` is `None` for `null`. */
  datatype Chapter = Chapter(name: string, url: string, thumbnailUrl: Option<string>)

  /** The thumbnail of an episode link: `src || data-src`, upgraded when protocol-relative, dropped when site-relative. */
  function Thumbnail(img: Option<Element>, showThumbnail: bool): (r: Option<string>)
    ensures !showThumbnail || img.None? ==> r.None?
    ensures r.Some? && r.value != "" ==> StartsWith(r.value, "http")
    ensures showThumbnail && img.Some? && !Truthy(Or(Attr(img.value, "src"), Attr(img.value, "data-src")))
            ==> r == Attr(img.value, "data-src") && (r.None? || r.value == "")
  {
    if !showThumbnail || img.None? then None
    else
      var t := Or(Attr(img.value, "src"), Attr(img.value, "data-src"));
      if Truthy(t) && !StartsWith(t.value, "http") then
        if StartsWith(t.value, "//") then Some("https:" + t.value) else None
      else t
  }

  /** The three kinds of thumbnail URL, when the preference is on and the link has an image. */
  lemma ThumbnailCases(img: Element)
    ensures var t := Or(Attr(img, "src"), Attr(img, "data-src"));
      && (Truthy(t) && StartsWith(t.value, "http") ==> Thumbnail(Some(img), true) == t)
      && (Truthy(t) && StartsWith(t.value, "//") ==> Thumbnail(Some(img), true) == Some("https:" + t.value))
      && (Truthy(t) && !StartsWith(t.value, "http") && !StartsWith(t.value, "//") ==> Thumbnail(Some(img), true).None?)
  {
    var t := Or(Attr(img, "src"), Attr(img, "data-src"));
    if Truthy(t) && StartsWith(t.value, "//") {
      assert t.value[0] == '/';
    }
  }

  // ---------------------------------------------------------------- the episode list

  /** A link is skipped when its href is empty, absent or `#`. */
  predicate Kept(link: EpisodeLink) {
    Truthy(link.href) && link.href.value != "#"
  }

  /** The episode a kept link at position `index` of the selection gives. */
  function ChapterFor(link: EpisodeLink, index: nat, showThumbnail: bool): (r: Chapter)
    requires Kept(link)
    ensures r.url == link.href.value
  {
    var name := Trim(link.text);
    var num := EpisodeNumber(link.href.value, name, index);
    Chapter(EpisodeName(name, num), link.href.value, Thumbnail(link.img, showThumbnail))
  }

  /** What visiting a link pushes: its episode when the link is kept, nothing otherwise. */
  function Visit(link: EpisodeLink, index: nat, showThumbnail: bool): Option<Chapter> {
    if Kept(link) then Some(ChapterFor(link, index, showThumbnail)) else None
  }

  function VisitOf(showThumbnail: bool): (EpisodeLink, nat) -> Option<Chapter> {
    (link: EpisodeLink, index: nat) => Visit(link, index, showThumbnail)
  }

  /** What visiting each link pushes, link by link. */
  function Visits(links: seq<EpisodeLink>, showThumbnail: bool): (r: seq<Option<Chapter>>)
    ensures |r| == |links|
  {
    MapIndexed(links, VisitOf(showThumbnail), 0)
  }

  /** Entry `j` of the visits is the visit of link `j`. */
  lemma VisitsAt(links: seq<EpisodeLink>, showThumbnail: bool, j: nat)
    requires j < |links|
    ensures Visits(links, showThumbnail)[j] == Visit(links[j], j, showThumbnail)
    ensures Visits(links, showThumbnail)[j].Some? <==> Kept(links[j])
  {
    MapIndexedAt(links, VisitOf(showThumbnail), 0, j);
  }

  /** The episodes pushed while visiting the first `n` links, in encounter order. */
  function Pushed(links: seq<EpisodeLink>, showThumbnail: bool, n: nat): seq<Chapter>
    requires n <= |links|
  {
    Present(Visits(links, showThumbnail), n)
  }

  /** The number of kept links among the first `n`. */
  function KeptCount(links: seq<EpisodeLink>, n: nat): nat
    requires n <= |links|
  {
    if n == 0 then 0 else KeptCount(links, n - 1) + (if Kept(links[n - 1]) then 1 else 0)
  }

  /** One episode is pushed per kept link. */
  lemma {:induction false} PushedLength(links: seq<EpisodeLink>, showThumbnail: bool, n: nat)
    requires n <= |links|
    ensures |Pushed(links, showThumbnail, n)| == KeptCount(links, n)
  {
    if n > 0 {
      PushedLength(links, showThumbnail, n - 1);
      VisitsAt(links, showThumbnail, n - 1);
    }
  }

  /**
   * The kept link at position `j` gives the pushed episode that follows those
   * of the links before it, numbered from its position `j` among all links,
   * skipped ones included.
   */
  lemma PushedAt(links: seq<EpisodeLink>, showThumbnail: bool, n: nat, j: nat)
    requires j < n <= |links| && Kept(links[j])
    ensures |Pushed(links, showThumbnail, j)| < |Pushed(links, showThumbnail, n)|
    ensures Pushed(links, showThumbnail, n)[|Pushed(links, showThumbnail, j)|] == ChapterFor(links[j], j, showThumbnail)
  {
    VisitsAt(links, showThumbnail, j);
    PresentAt(Visits(links, showThumbnail), n, j);
  }

  /** `s.reverse()` */
  function Reversed<T>(s: seq<T>): (r: seq<T>)
    ensures |r| == |s|
    ensures forall k :: 0 <= k < |s| ==> r[k] == s[|s| - 1 - k]
  {
    if s == [] then [] else Reversed(s[1..]) + [s[0]]
  }

  /**
   * The episode loop of `getDetail`: links with an empty or `#` href are
   * skipped but keep their place in the numbering; the list comes out
   * newest first, the reverse of encounter order.
   */
  method ExtractEpisodes(links: seq<EpisodeLink>, showThumbnail: bool) returns (chapters: seq<Chapter>)
    ensures chapters == Reversed(Pushed(links, showThumbnail, |links|))
    ensures |chapters| == KeptCount(links, |links|)
    ensures forall j :: 0 <= j < |links| && Kept(links[j]) ==>
              |Pushed(links, showThumbnail, j)| < |chapters|
              && chapters[|chapters| - 1 - |Pushed(links, showThumbnail, j)|] == ChapterFor(links[j], j, showThumbnail)
  {
    chapters := [];
    for index := 0 to |links|
      invariant chapters == Pushed(links, showThumbnail, index)
    {
      var ep := links[index];
      if !Truthy(ep.href) || ep.href.value == "#" {
        VisitSkipped(links, showThumbnail, index);
        continue;
      }
      var chapter := ReadEpisode(links, index, showThumbnail);
      chapters := chapters + [chapter];
    }
    chapters := Reversed(chapters);
    ReversedPushedAt(links, showThumbnail, chapters);
  }

  /** A skipped link pushes nothing. */
  lemma VisitSkipped(links: seq<EpisodeLink>, showThumbnail: bool, index: nat)
    requires index < |links| && !Kept(links[index])
    ensures Visits(links, showThumbnail)[index] == None
  {
    VisitsAt(links, showThumbnail, index);
  }

  /** Where each kept link's episode lands once the pushed list is reversed. */
  lemma ReversedPushedAt(links: seq<EpisodeLink>, showThumbnail: bool, chapters: seq<Chapter>)
    requires chapters == Reversed(Pushed(links, showThumbnail, |links|))
    ensures |chapters| == KeptCount(links, |links|)
    ensures forall j :: 0 <= j < |links| && Kept(links[j]) ==>
              |Pushed(links, showThumbnail, j)| < |chapters|
              && chapters[|chapters| - 1 - |Pushed(links, showThumbnail, j)|] == ChapterFor(links[j], j, showThumbnail)
  {
    PushedLength(links, showThumbnail, |links|);
    forall j | 0 <= j < |links| && Kept(links[j])
      ensures |Pushed(links, showThumbnail, j)| < |chapters|
              && chapters[|chapters| - 1 - |Pushed(links, showThumbnail, j)|] == ChapterFor(links[j], j, showThumbnail)
    {
      PushedAt(links, showThumbnail, |links|, j);
    }
  }

  /** The body of the episode loop for a kept link: the episode it pushes. */
  method ReadEpisode(links: seq<EpisodeLink>, index: nat, showThumbnail: bool) returns (chapter: Chapter)
    requires index < |links| && Kept(links[index])
    ensures Visits(links, showThumbnail)[index] == Some(chapter)
  {
    VisitsAt(links, showThumbnail, index);
    var ep := links[index];
    var epUrl := ep.href.value;
    var epName := Trim(ep.text);
    ghost var text := epName;
    var epNum := index + 1;
    var epNumMatch := Search(UrlEpisode, epUrl);
    if epNumMatch.None? {
      epNumMatch := Search(TextEpisode, epName);
    }
    if epNumMatch.None? {
      epNumMatch := Search(TextEp, epName);
    }
    if epNumMatch.Some? {
      epNum := epNumMatch.value;
    }
    assert epNum == EpisodeNumber(epUrl, text, index);
    if epName == "" || epName == "Watch" {
      epName := "Episode " + NatToString(epNum);
    } else if !Contains(ToLower(epName), "episode") {
      epName := "Episode " + NatToString(epNum) + ": " + epName;
    }
    assert epName == EpisodeName(text, epNum);
    var thumbnailUrl: Option<string> := None;
    if showThumbnail && ep.img.Some? {
      thumbnailUrl := Or(Attr(ep.img.value, "src"), Attr(ep.img.value, "data-src"));
      if Truthy(thumbnailUrl) && !StartsWith(thumbnailUrl.value, "http") {
        thumbnailUrl := if StartsWith(thumbnailUrl.value, "//") then Some("https:" + thumbnailUrl.value) else None;
      }
    }
    assert thumbnailUrl == Thumbnail(ep.img, showThumbnail);
    chapter := Chapter(epName, epUrl, thumbnailUrl);
  }

  // ---------------------------------------------------------------- the detail record

  /** What `getDetail` selects on the fetched page: each `selectFirst` is `None` when nothing matches. */
  datatype DetailDocument = DetailDocument(
    heading: Option<Element>,
    cover: Option<Element>,
    description: Option<Element>,
    status: Option<Element>,
    genreTexts: seq<string>,
    episodeLinks: seq<EpisodeLink>)

  /** The record `getDetail` returns; `imageUrl` is `None` for a cover without `src`. */
  datatype Detail = Detail(
    name: string,
    imageUrl: Option<string>,
    link: string,
    description: string,
    genre: seq<string>,
    status: nat,
    chapters: seq<Chapter>)

  /**
   * `getDetail(url)`: `slug` is the page requested, `doc` the page that
   * request yields. The status is 5 without a status element, and the
   * episodes come newest first. The status of a status element is the
   * corrected `StatusCode`, which answers 5 for every text outside the
   * table; the lookup as written (`StatusCodeAsWritten`) differs from it
   * only on `constructor` and `__proto__`.
   */
  method GetDetail(url: string, baseUrl: string, doc: DetailDocument, namePref: string, showThumbnail: bool)
    returns (slug: string, detail: Detail)
    ensures slug == DetailSlug(url, baseUrl)
    ensures detail.link == DetailLink(url, baseUrl) && StartsWith(detail.link, baseUrl)
    ensures detail.name == DetailTitle(doc.heading, namePref)
    ensures detail.imageUrl == DetailImage(doc.cover)
    ensures doc.description.None? ==> detail.description == ""
    ensures doc.description.Some? ==> detail.description == Trim(doc.description.value.text)
    ensures doc.status.None? ==> detail.status == 5
    ensures doc.status.Some? ==> detail.status == StatusCode(Trim(doc.status.value.text))
    ensures detail.status in {0, 1, 4, 5}
    ensures detail.genre == Genres(doc.genreTexts)
    ensures detail.chapters == Reversed(Pushed(doc.episodeLinks, showThumbnail, |doc.episodeLinks|))
  {
    slug := url;
    if Contains(url, baseUrl) {
      slug := ReplaceFirst(url, baseUrl, "");
    }
    var link := baseUrl + slug;
    var name := DetailTitle(doc.heading, namePref);
    var imageUrl := DetailImage(doc.cover);
    var description := "";
    if doc.description.Some? {
      description := Trim(doc.description.value.text);
    }
    var status := 5;
    if doc.status.Some? {
      status := StatusCode(Trim(doc.status.value.text));
    }
    var genre := [];
    for i := 0 to |doc.genreTexts|
      invariant genre == Genres(doc.genreTexts[..i])
    {
      var genreText := Trim(doc.genreTexts[i]);
      if genreText != "" {
        genre := genre + [genreText];
      }
      assert doc.genreTexts[..i + 1][..i] == doc.genreTexts[..i];
    }
    assert doc.genreTexts[..|doc.genreTexts|] == doc.genreTexts;
    var chapters := ExtractEpisodes(doc.episodeLinks, showThumbnail);
    detail := Detail(name, imageUrl, link, description, genre, status, chapters);
  }
}
