/**
 * The AniZone episode page of an anime title and the placeholder stream
 * record `getStreamUrl` builds for it, and the request body the
 * backend-backed provider sends for the same episode.
 */
module AniZoneStream {
  import opened Wrappers
  import opened Strings
  import opened AniZoneSlug
  import AniZoneM3U8

  // ---------------------------------------------------------------- provider configuration

  const ProviderName: string := "AniZone"
  const ProviderId: string := "anizone"
  const ProviderVersion: string := "1.0.0"
  const ProviderBaseUrl: string := "https://anizone.to"
  /** The quality keys a stream table may hold, `auto` first. */
  const SupportedQualities: seq<string> := ["auto", "1080p", "720p", "480p", "360p"]

  // ---------------------------------------------------------------- the episode page

  const AnimePrefix: string := ProviderBaseUrl + "/anime/"
  const EpisodeInfix: string := "/episode-"

  /** `${baseUrl}/anime/${slug}/episode-${episodeNumber}` */
  function EpisodeUrl(slug: string, episodeNumber: nat): string {
    AnimePrefix + slug + EpisodeInfix + NatToString(episodeNumber)
  }

  /** A decimal numeral as a template literal writes a number: no leading zero unless it is `0`. */
  predicate Numeral(d: string) {
    |d| >= 1 && AllDigits(d) && (d[0] == '0' ==> |d| == 1)
  }

  predicate NoSlash(s: string) {
    forall k :: 0 <= k < |s| ==> s[k] != '/'
  }

  /**
   * Reads the slug and the episode number back out of an episode page URL:
   * the slug runs up to the first `/` after the anime prefix, and what
   * follows must be `/episode-` and a numeral.
   */
  function ParseEpisodeUrl(url: string): (r: Option<(string, nat)>)
    ensures r.Some? ==> NoSlash(r.value.0)
  {
    if StartsWith(url, AnimePrefix) then ParseSlugAndEpisode(url[|AnimePrefix|..]) else None
  }

  /** The part of `ParseEpisodeUrl` after the anime prefix. */
  function ParseSlugAndEpisode(rest: string): (r: Option<(string, nat)>)
    ensures r.Some? ==> NoSlash(r.value.0)
  {
    match IndexOf(rest, "/")
    case None => None
    case Some(k) =>
      var tail := rest[k..];
      if !StartsWith(tail, EpisodeInfix) then None
      else
        var d := tail[|EpisodeInfix|..];
        if !Numeral(d) then None
        else
          assert forall j :: 0 <= j < k ==> rest[..k][j] != '/' by {
            forall j | 0 <= j < k ensures rest[..k][j] != '/' {
              assert !OccursAt(rest, "/", j);
              assert rest[j..j + 1] == [rest[j]];
            }
          }
          Some((rest[..k], DigitsValue(d)))
  }

  /** After a `/`-free stretch, the first `/` is the one that ends it. */
  lemma FirstSlash(slug: string, tail: string)
    requires NoSlash(slug) && |tail| >= 1 && tail[0] == '/'
    ensures IndexOf(slug + tail, "/") == Some(|slug|)
  {
    var s := slug + tail;
    assert OccursAt(s, "/", |slug|) by {
      assert s[|slug|..|slug| + 1] == [tail[0]];
    }
    forall j | 0 <= j < |slug|
      ensures !OccursAt(s, "/", j)
    {
      assert s[j] == slug[j];
    }
    var r := IndexOf(s, "/");
    assert r.Some?;
    assert !(r.value < |slug|);
    assert !(r.value > |slug|);
  }

  lemma StripPrefix(p: string, rest: string)
    ensures StartsWith(p + rest, p) && (p + rest)[|p|..] == rest
  {
  }

  /** A numeral whose first digit is not `0` has a positive value. */
  lemma {:induction false} NumeralPositive(d: string)
    requires |d| >= 1 && AllDigits(d) && d[0] != '0'
    ensures DigitsValue(d) >= 1
  {
    if |d| > 1 {
      NumeralPositive(d[..|d| - 1]);
    }
  }

  /** Writing out the value of a numeral gives back the numeral. */
  lemma {:induction false} NumeralRoundTrip(d: string)
    requires Numeral(d)
    ensures NatToString(DigitsValue(d)) == d
  {
    if |d| > 1 {
      var front := d[..|d| - 1];
      var n := DigitsValue(d);
      NumeralPositive(front);
      NumeralRoundTrip(front);
      assert n / 10 == DigitsValue(front) && n % 10 == d[|d| - 1] as int - '0' as int;
      assert NatToString(n) == front + [d[|d| - 1]];
    }
  }

  /** The episode page of a `/`-free slug reads back as that slug and episode. */
  lemma EpisodeUrlRoundTrip(slug: string, episodeNumber: nat)
    requires NoSlash(slug)
    ensures ParseEpisodeUrl(EpisodeUrl(slug, episodeNumber)) == Some((slug, episodeNumber))
  {
    var digits := NatToString(episodeNumber);
    var tail := EpisodeInfix + digits;
    var rest := slug + tail;
    AppendAssoc(AnimePrefix + slug, EpisodeInfix, digits);
    AppendAssoc(AnimePrefix, slug, tail);
    StripPrefix(AnimePrefix, rest);
    FirstSlash(slug, tail);
    StripPrefix(slug, tail);
    StripPrefix(EpisodeInfix, digits);
  }

  /** Every URL that reads back as a slug and an episode is that episode's page. */
  lemma ParseEpisodeUrlSound(url: string)
    requires ParseEpisodeUrl(url).Some?
    ensures url == EpisodeUrl(ParseEpisodeUrl(url).value.0, ParseEpisodeUrl(url).value.1)
  {
    var rest := url[|AnimePrefix|..];
    var k := IndexOf(rest, "/").value;
    var tail := rest[k..];
    var d := tail[|EpisodeInfix|..];
    NumeralRoundTrip(d);
    assert tail == EpisodeInfix + d;
    assert rest == rest[..k] + tail;
    assert url == AnimePrefix + rest;
    AppendAssoc(AnimePrefix + rest[..k], EpisodeInfix, d);
    AppendAssoc(AnimePrefix, rest[..k], tail);
  }

  /** Distinct `/`-free slugs or episode numbers have distinct episode pages. */
  lemma EpisodeUrlInjective(s1: string, n1: nat, s2: string, n2: nat)
    requires NoSlash(s1) && NoSlash(s2)
    ensures EpisodeUrl(s1, n1) == EpisodeUrl(s2, n2) <==> s1 == s2 && n1 == n2
  {
    EpisodeUrlRoundTrip(s1, n1);
    EpisodeUrlRoundTrip(s2, n2);
  }

  /** The slug of any title is `/`-free, so the page of a title's episode names that title's slug and episode. */
  lemma EpisodeUrlOfTitle(title: string, episodeNumber: nat)
    ensures ParseEpisodeUrl(EpisodeUrl(Slug(title), episodeNumber)) == Some((Slug(title), episodeNumber))
  {
    SlugShape(title);
    EpisodeUrlRoundTrip(Slug(title), episodeNumber);
  }

  // ---------------------------------------------------------------- the placeholder stream record

  /** The playback headers; `userAgent` is the host's `navigator.userAgent`. */
  function PlaybackHeaders(userAgent: string): seq<(string, string)> {
    [("Referer", ProviderBaseUrl + "/"), ("Origin", ProviderBaseUrl), ("User-Agent", userAgent)]
  }

  /**
   * A stream record: `streams` lists the quality keys in the record's own
   * order with the variant each holds (`None` for `null`); the two
   * timestamps are `None` while nothing has been extracted.
   */
  datatype StreamRecord = StreamRecord(
    source: string,
    slug: string,
    episodeNumber: nat,
    episodeUrl: string,
    streams: seq<(string, Option<AniZoneM3U8.Variant>)>,
    headers: seq<(string, string)>,
    extracted: bool,
    extractedAt: Option<string>,
    expiresAt: Option<string>)

  /** `getStreamUrl`: the placeholder record of an episode, before any extraction. */
  function GetStreamUrl(animeTitle: string, episodeNumber: nat, userAgent: string): StreamRecord {
    var slug := Slug(animeTitle);
    StreamRecord(
      ProviderName, slug, episodeNumber,
      AnimePrefix + slug + EpisodeInfix + NatToString(episodeNumber),
      [("auto", None), ("1080p", None), ("720p", None), ("480p", None), ("360p", None)],
      PlaybackHeaders(userAgent),
      false, None, None)
  }

  /**
   * The placeholder record names the provider, carries the episode page of
   * the title's slug, which reads back as that slug and episode, and is
   * marked as not extracted, with no extraction or expiry time.
   */
  lemma StreamRecordPlaceholder(animeTitle: string, episodeNumber: nat, userAgent: string)
    ensures var r := GetStreamUrl(animeTitle, episodeNumber, userAgent);
      && r.source == ProviderName
      && r.slug == Slug(animeTitle)
      && r.episodeUrl == EpisodeUrl(r.slug, episodeNumber)
      && ParseEpisodeUrl(r.episodeUrl) == Some((r.slug, r.episodeNumber))
      && !r.extracted && r.extractedAt == None && r.expiresAt == None
  {
    var r := GetStreamUrl(animeTitle, episodeNumber, userAgent);
    assert r.episodeUrl == EpisodeUrl(Slug(animeTitle), episodeNumber);
    EpisodeUrlOfTitle(animeTitle, episodeNumber);
  }

  /** The placeholder stream table holds one empty entry per supported quality, in the configured order. */
  lemma PlaceholderStreams(animeTitle: string, episodeNumber: nat, userAgent: string)
    ensures var t := GetStreamUrl(animeTitle, episodeNumber, userAgent).streams;
      && |t| == |SupportedQualities|
      && forall k :: 0 <= k < |t| ==> t[k] == (SupportedQualities[k], None)
  {
  }

  // ---------------------------------------------------------------- the backend request

  /** The JSON body the backend-backed provider posts to `${backendUrl}/extract`. */
  datatype ExtractRequest = ExtractRequest(url: string, slug: string, episode: nat)

  /** The episode page and slug `getVideoSource` of the backend-backed provider computes before it calls the backend. */
  function BackendRequest(animeTitle: string, episodeNumber: nat): ExtractRequest {
    var slug := Slug(animeTitle);
    ExtractRequest(EpisodeUrl(slug, episodeNumber), slug, episodeNumber)
  }

  /**
   * Both providers agree on the episode: the backend is asked for the same
   * page, slug and episode number that the placeholder record carries.
   */
  lemma BackendRequestMatchesRecord(animeTitle: string, episodeNumber: nat, userAgent: string)
    ensures var req := BackendRequest(animeTitle, episodeNumber);
      var r := GetStreamUrl(animeTitle, episodeNumber, userAgent);
      req.url == r.episodeUrl && req.slug == r.slug && req.episode == r.episodeNumber
      && ParseEpisodeUrl(req.url) == Some((req.slug, req.episode))
  {
    EpisodeUrlOfTitle(animeTitle, episodeNumber);
  }
}
