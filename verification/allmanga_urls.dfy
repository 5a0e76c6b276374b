/**
 * URL building in the AllManga provider: normalising scraped URLs, joining a
 * slug to the preferred base URL, the listing and search slugs, and the
 * link and slug of a detail page.
 */
module AllMangaUrls {
  import opened Wrappers
  import opened Strings

  /** `this.source.baseUrl`, from the provider's source record. */
  const SourceBaseUrl: string := "https://allmanga.to"

  /**
   * Normalisation of a scraped image, iframe or video-source URL: an absolute
   * URL is kept, a protocol-relative one gets `https:` and anything else is
   * taken relative to the source's base URL.
   */
  function Absolutize(url: string): (r: string)
    ensures StartsWith(r, "http")
    ensures |url| <= |r| && r[|r| - |url|..] == url
    ensures r == url <==> StartsWith(url, "http")
  {
    if StartsWith(url, "http") then url
    else if StartsWith(url, "//") then "https:" + url
    else SourceBaseUrl + url
  }

  /** The three cases of the normalisation, one per kind of URL. */
  lemma AbsolutizeCases(url: string)
    ensures StartsWith(url, "http") ==> Absolutize(url) == url
    ensures !StartsWith(url, "http") && StartsWith(url, "//") ==> Absolutize(url) == "https:" + url
    ensures !StartsWith(url, "http") && !StartsWith(url, "//") ==> Absolutize(url) == SourceBaseUrl + url
  {
  }

  /** Normalising twice gives the same URL as normalising once. */
  lemma AbsolutizeIdempotent(url: string)
    ensures Absolutize(Absolutize(url)) == Absolutize(url)
  {
  }

  /** An image URL: the empty string is kept, anything else is normalised. */
  function NormalizeImage(url: string): (r: string)
    ensures r == "" <==> url == ""
    ensures r != "" ==> StartsWith(r, "http")
  {
    if url != "" then Absolutize(url) else url
  }

  /** The URL `request(slug)` fetches: the base URL is put in front unless the slug already contains it. */
  function RequestUrl(baseUrl: string, slug: string): (r: string)
    ensures Contains(r, baseUrl)
    ensures Contains(slug, baseUrl) ==> r == slug
    ensures !Contains(slug, baseUrl) ==> |r| == |baseUrl| + |slug| && StartsWith(r, baseUrl) && r[|baseUrl|..] == slug
  {
    if Contains(slug, baseUrl) then slug
    else
      ContainsAt(baseUrl + slug, baseUrl, 0);
      baseUrl + slug
  }

  /** Joining is idempotent: a joined URL is fetched as it is. */
  lemma RequestUrlIdempotent(baseUrl: string, slug: string)
    ensures RequestUrl(baseUrl, RequestUrl(baseUrl, slug)) == RequestUrl(baseUrl, slug)
  {
  }

  /** The query string parameters `searchPage` appends for the type, country and page filters. */
  function FilterSuffix(kind: string, country: string, page: int): (r: string)
    ensures r == "" <==> kind == "" && country == "" && page <= 1
    ensures r != "" ==> r[0] == '&'
    ensures page > 1 ==> |r| >= |"&page=" + IntToString(page)|
                         && r[|r| - |"&page=" + IntToString(page)|..] == "&page=" + IntToString(page)
    ensures kind != "" ==> StartsWith(r, "&tr=" + kind)
    ensures kind != "" && country != "" ==> StartsWith(r, "&tr=" + kind + "&cty=" + country)
    ensures kind == "" && country != "" ==> StartsWith(r, "&cty=" + country)
    ensures kind == "" && country == "" ==> r == (if page > 1 then "&page=" + IntToString(page) else "")
    ensures |r| == (if kind != "" then 4 + |kind| else 0) + (if country != "" then 5 + |country| else 0)
                   + (if page > 1 then 6 + |IntToString(page)| else 0)
  {
    var tr := if kind != "" then "&tr=" + kind else "";
    var cty := if country != "" then "&cty=" + country else "";
    var pg := if page > 1 then "&page=" + IntToString(page) else "";
    PrefixOfAppend(tr + cty, pg);
    PrefixOfAppend(tr, cty + pg);
    AppendAssoc(tr, cty, pg);
    tr + cty + pg
  }

  /**
   * The slug `searchPage` requests. `encode` stands for `encodeURIComponent`.
   * Without a query the filters are appended to `/anime` with `&`, and no `?`
   * introduces them.
   */
  function SearchSlug(query: string, encode: string -> string, kind: string, country: string, page: int): (r: string)
    ensures |query| > 0 ==> StartsWith(r, "/search?keyword=" + encode(query))
    ensures |query| > 0 ==> r[|"/search?keyword=" + encode(query)|..] == FilterSuffix(kind, country, page)
    ensures query == "" ==> StartsWith(r, "/anime") && (|r| == 6 || r[6] == '&')
    ensures query == "" ==> r[6..] == FilterSuffix(kind, country, page)
    ensures query == "" ==> (r == "/anime" <==> kind == "" && country == "" && page <= 1)
  {
    var head := if |query| > 0 then "/search?keyword=" + encode(query) else "/anime";
    head + FilterSuffix(kind, country, page)
  }

  /** The type filter of the popular page: the first preferred type, or `sub` when none is chosen. */
  function PopularSlug(types: seq<string>, page: int): (r: string)
    ensures StartsWith(r, "/anime")
    ensures types == [] ==> StartsWith(r, "/anime&tr=sub")
    ensures types != [] && types[0] != "" ==> StartsWith(r, "/anime&tr=" + types[0])
    ensures r == "/anime" + FilterSuffix(if |types| > 0 then types[0] else "sub", "", page)
  {
    var kind := if |types| > 0 then types[0] else "sub";
    var f := FilterSuffix(kind, "", page);
    PrefixOfAppend("/anime", f);
    if kind != "" then
      PrefixAppend("/anime", f, "&tr=" + kind);
      SearchSlug("", s => s, kind, "", page)
    else
      SearchSlug("", s => s, kind, "", page)
  }

  /** The slug of `getLatestUpdates`. */
  function LatestSlug(types: seq<string>, page: int): (r: string)
    ensures StartsWith(r, "/search-anime?page=" + IntToString(page))
    ensures types != [] && types[0] != "" <==> Contains(r, "&tr=")
    ensures types != [] && types[0] != "" ==> r[|"/search-anime?page=" + IntToString(page)|..] == "&tr=" + types[0]
    ensures types == [] || types[0] == "" ==> r == "/search-anime?page=" + IntToString(page)
  {
    var head := "/search-anime?page=" + IntToString(page);
    if |types| > 0 && types[0] != "" then
      ContainsAt(head + "&tr=" + types[0], "&tr=", |head|);
      head + "&tr=" + types[0]
    else
      NoTrInPageHead(page);
      head
  }

  lemma NoTrInPageHead(page: int)
    ensures !Contains("/search-anime?page=" + IntToString(page), "&tr=")
  {
    var lit := "/search-anime?page=";
    var h := lit + IntToString(page);
    assert forall i :: 0 <= i < |lit| ==> lit[i] != '&';
    assert forall i :: |lit| <= i < |h| ==> h[i] == IntToString(page)[i - |lit|];
    NotContainsWithout(h, "&tr=", 0);
  }

  /** The slug `getDetail` requests: the first occurrence of the base URL is removed from `url`. */
  function DetailSlug(url: string, baseUrl: string): (r: string)
    ensures !Contains(url, baseUrl) ==> r == url
    ensures Contains(url, baseUrl) ==> |r| == |url| - |baseUrl|
    ensures Contains(url, baseUrl) ==> exists i :: FirstAt(url, baseUrl, i) && r == url[..i] + url[i + |baseUrl|..]
  {
    if Contains(url, baseUrl) then
      var r := ReplaceFirst(url, baseUrl, "");
      assert forall i :: 0 <= i <= |url| - |baseUrl| ==> url[..i] + "" + url[i + |baseUrl|..] == url[..i] + url[i + |baseUrl|..];
      r
    else url
  }

  /**
   * The `link` a detail record reports: the base URL followed by the URL
   * with the first occurrence of the base URL removed.
   */
  function DetailLink(url: string, baseUrl: string): (r: string)
    ensures StartsWith(r, baseUrl)
    ensures !Contains(url, baseUrl) ==> r == baseUrl + url
    ensures Contains(url, baseUrl) ==> exists i :: FirstAt(url, baseUrl, i) && r == baseUrl + url[..i] + url[i + |baseUrl|..]
  {
    baseUrl + DetailSlug(url, baseUrl)
  }

  /** A URL that starts with the base URL is reported as its own link. */
  lemma DetailLinkOfAbsolute(url: string, baseUrl: string)
    requires StartsWith(url, baseUrl)
    ensures DetailSlug(url, baseUrl) == url[|baseUrl|..]
    ensures DetailLink(url, baseUrl) == url
  {
    assert OccursAt(url, baseUrl, 0);
    assert IndexOf(url, baseUrl) == Some(0);
  }

  /**
   * For a URL under the base URL whose remainder does not repeat the base
   * URL, the page `getDetail` fetches is the link it reports.
   */
  lemma DetailFetchesLink(url: string, baseUrl: string)
    requires StartsWith(url, baseUrl) && !Contains(url[|baseUrl|..], baseUrl)
    ensures RequestUrl(baseUrl, DetailSlug(url, baseUrl)) == DetailLink(url, baseUrl) == url
  {
    DetailLinkOfAbsolute(url, baseUrl);
  }
}
