/**
 * The video list of the AllManga provider (`getVideoList`): streams from
 * iframes, from `<video><source>` elements and from URLs found in script
 * text, de-duplicated by URL with the first stream for a URL kept.
 */
module AllMangaVideo {
  import opened Wrappers
  import opened Strings
  import opened AllMangaUrls

  // ---------------------------------------------------------------- streams

  /** The headers of `getHeaders`: a fixed user agent and the source's base URL as referer. */
  datatype Headers = Headers(userAgent: string, referer: string)

  const UserAgent: string := "Mozilla/5.0 (Windows NT 10.0; Win64; x64) AppleWebKit/537.36"

  const ProviderHeaders: Headers := Headers(UserAgent, SourceBaseUrl)

  datatype Stream = Stream(url: string, originalUrl: string, quality: string, headers: Headers)

  /** A stream for `url` labelled `quality`, as every pass of `getVideoList` records it. */
  function MakeStream(url: string, quality: string): Stream {
    Stream(url, url, quality, ProviderHeaders)
  }

  /** A `<video><source>` element: its `src`, `label` and `data-quality` attributes (`labelAttr` holds `label`). */
  datatype SourceElement = SourceElement(src: string, labelAttr: Option<string>, dataQuality: Option<string>)

  /** What `getVideoList` selects on the fetched page: iframe `src`s, video sources and script texts. */
  datatype VideoPage = VideoPage(iframes: seq<string>, sources: seq<SourceElement>, scripts: seq<string>)

  // ---------------------------------------------------------------- iframes and video sources

  /** The host name fragments `getVideoList` looks for, in the order it tries them, with their labels. */
  const ServerTable: seq<(string, string)> := [
    ("gogoanime", "GoGoAnime"), ("vidstreaming", "VidStreaming"), ("streamwish", "StreamWish"),
    ("filemoon", "FileMoon"), ("doodstream", "DoodStream")]

  /**
   * The server label of an iframe: the label of the first fragment in the
   * table that the URL contains, or `Default` when it contains none.
   */
  function ServerName(src: string): (r: string)
    ensures forall k :: 0 <= k < |ServerTable| && Contains(src, ServerTable[k].0)
                        && (forall j :: 0 <= j < k ==> !Contains(src, ServerTable[j].0))
                        ==> r == ServerTable[k].1
    ensures r == "Default" <==> forall k :: 0 <= k < |ServerTable| ==> !Contains(src, ServerTable[k].0)
  {
    assert forall k :: 0 <= k < |ServerTable| ==> ServerTable[k] == [
      ("gogoanime", "GoGoAnime"), ("vidstreaming", "VidStreaming"), ("streamwish", "StreamWish"),
      ("filemoon", "FileMoon"), ("doodstream", "DoodStream")][k];
    if Contains(src, "gogoanime") then
      assert Contains(src, ServerTable[0].0);
      "GoGoAnime"
    else if Contains(src, "vidstreaming") then
      assert !Contains(src, ServerTable[0].0) && Contains(src, ServerTable[1].0);
      "VidStreaming"
    else if Contains(src, "streamwish") then
      assert !Contains(src, ServerTable[0].0) && !Contains(src, ServerTable[1].0);
      assert Contains(src, ServerTable[2].0);
      "StreamWish"
    else if Contains(src, "filemoon") then
      assert !Contains(src, ServerTable[0].0) && !Contains(src, ServerTable[1].0);
      assert !Contains(src, ServerTable[2].0) && Contains(src, ServerTable[3].0);
      "FileMoon"
    else if Contains(src, "doodstream") then
      assert !Contains(src, ServerTable[0].0) && !Contains(src, ServerTable[1].0);
      assert !Contains(src, ServerTable[2].0) && !Contains(src, ServerTable[3].0);
      assert Contains(src, ServerTable[4].0);
      "DoodStream"
    else "Default"
  }

  /** The stream of an iframe with a non-empty `src`: its normalised URL, labelled with its server. */
  function IframeStream(src: string): (r: Stream)
    ensures StartsWith(r.url, "http") && r.headers == ProviderHeaders
    ensures r.url == r.originalUrl == Absolutize(src) && r.quality == ServerName(r.url)
  {
    MakeStream(Absolutize(src), ServerName(Absolutize(src)))
  }

  /** An iframe with an empty `src` gives no stream; any other gives one at its normalised URL. */
  function IframeStreams(iframes: seq<string>): (r: seq<Stream>)
    ensures |r| <= |iframes|
    ensures forall k :: 0 <= k < |r| ==> StartsWith(r[k].url, "http") && r[k].headers == ProviderHeaders
  {
    if iframes == [] then []
    else
      var src := iframes[|iframes| - 1];
      IframeStreams(iframes[..|iframes| - 1]) + (if src == "" then [] else [IframeStream(src)])
  }

  /** The `src` values that are not empty, in page order. */
  function NonEmptySrcs(srcs: seq<string>): (r: seq<string>)
    ensures |r| <= |srcs|
    ensures forall k :: 0 <= k < |r| ==> r[k] != "" && r[k] in srcs
  {
    if srcs == [] then []
    else
      var init := srcs[..|srcs| - 1];
      var src := srcs[|srcs| - 1];
      var f := NonEmptySrcs(init);
      assert forall k :: 0 <= k < |f| ==> f[k] in srcs by {
        forall k | 0 <= k < |f| ensures f[k] in srcs {
          var j :| 0 <= j < |init| && init[j] == f[k];
          assert srcs[j] == f[k];
        }
      }
      f + (if src == "" then [] else [src])
  }

  /** Filtering more `src` values only adds to the end of what the first ones give. */
  lemma {:induction false} NonEmptySrcsPrefix(srcs: seq<string>, n: nat)
    requires n <= |srcs|
    ensures |NonEmptySrcs(srcs[..n])| <= |NonEmptySrcs(srcs)|
    ensures NonEmptySrcs(srcs)[..|NonEmptySrcs(srcs[..n])|] == NonEmptySrcs(srcs[..n])
    decreases |srcs| - n
  {
    if n == |srcs| {
      assert srcs[..n] == srcs;
    } else {
      var init := srcs[..|srcs| - 1];
      NonEmptySrcsPrefix(init, n);
      assert init[..n] == srcs[..n];
    }
  }

  /** A non-empty `src` is kept, right after the ones kept before it. */
  lemma NonEmptySrcsAt(srcs: seq<string>, j: nat)
    requires j < |srcs| && srcs[j] != ""
    ensures |NonEmptySrcs(srcs[..j])| < |NonEmptySrcs(srcs)|
    ensures NonEmptySrcs(srcs)[|NonEmptySrcs(srcs[..j])|] == srcs[j]
  {
    assert srcs[..j + 1][..j] == srcs[..j];
    assert NonEmptySrcs(srcs[..j + 1]) == NonEmptySrcs(srcs[..j]) + [srcs[j]];
    NonEmptySrcsPrefix(srcs, j + 1);
  }

  /**
   * The iframe at position `j` with a non-empty `src` gives the stream right
   * after those of the iframes before it: its normalised URL, labelled with
   * its server.
   */
  lemma IframeStreamOf(iframes: seq<string>, j: nat)
    requires j < |iframes| && iframes[j] != ""
    ensures var k := |NonEmptySrcs(iframes[..j])|;
      && k < |IframeStreams(iframes)|
      && IframeStreams(iframes)[k].url == Absolutize(iframes[j])
      && IframeStreams(iframes)[k].quality == ServerName(Absolutize(iframes[j]))
  {
    NonEmptySrcsAt(iframes, j);
    IframeStreamsAt(iframes, |NonEmptySrcs(iframes[..j])|);
  }

  /** Exactly the non-empty `src` values are kept, each as often as it occurs. */
  lemma {:induction false} NonEmptySrcsMultiset(srcs: seq<string>)
    ensures multiset(NonEmptySrcs(srcs)) == multiset(srcs)["" := 0]
  {
    if srcs != [] {
      var init := srcs[..|srcs| - 1];
      NonEmptySrcsMultiset(init);
      assert srcs == init + [srcs[|srcs| - 1]];
    }
  }

  /** Every iframe with a non-empty `src` gives exactly one stream. */
  lemma {:induction false} IframeStreamsLength(iframes: seq<string>)
    ensures |IframeStreams(iframes)| == |NonEmptySrcs(iframes)|
  {
    if iframes != [] {
      IframeStreamsLength(iframes[..|iframes| - 1]);
    }
  }

  /** Stream `k` of the iframe pass is the stream of the `k`-th iframe with a non-empty `src`. */
  lemma {:induction false} IframeStreamsAt(iframes: seq<string>, k: nat)
    requires k < |NonEmptySrcs(iframes)|
    ensures |IframeStreams(iframes)| == |NonEmptySrcs(iframes)|
    ensures IframeStreams(iframes)[k] == IframeStream(NonEmptySrcs(iframes)[k])
  {
    IframeStreamsLength(iframes);
    var init := iframes[..|iframes| - 1];
    IframeStreamsLength(init);
    if k < |NonEmptySrcs(init)| {
      IframeStreamsAt(init, k);
    }
  }

  /** The label of a video source: `label`, else `data-quality`, else `Direct`. */
  function SourceQuality(source: SourceElement): (r: string)
    ensures r != ""
    ensures Truthy(source.labelAttr) ==> r == source.labelAttr.value
    ensures !Truthy(source.labelAttr) && Truthy(source.dataQuality) ==> r == source.dataQuality.value
    ensures !Truthy(source.labelAttr) && !Truthy(source.dataQuality) ==> r == "Direct"
  {
    OrElse(Or(source.labelAttr, source.dataQuality), "Direct")
  }

  /** The stream of a video source with a non-empty `src`: its normalised URL, labelled with its quality. */
  function SourceStream(source: SourceElement): (r: Stream)
    ensures StartsWith(r.url, "http") && r.quality != ""
    ensures r.url == r.originalUrl == Absolutize(source.src) && r.quality == SourceQuality(source)
    ensures r.headers == ProviderHeaders
  {
    MakeStream(Absolutize(source.src), SourceQuality(source))
  }

  /** A video source with an empty `src` gives no stream; any other gives one at its normalised URL. */
  function SourceStreams(sources: seq<SourceElement>): (r: seq<Stream>)
    ensures |r| <= |sources|
    ensures forall k :: 0 <= k < |r| ==> StartsWith(r[k].url, "http") && r[k].quality != ""
  {
    if sources == [] then []
    else
      var source := sources[|sources| - 1];
      SourceStreams(sources[..|sources| - 1]) + (if source.src == "" then [] else [SourceStream(source)])
  }

  /** The video sources whose `src` is not empty, in page order. */
  function SourcesWithSrc(sources: seq<SourceElement>): (r: seq<SourceElement>)
    ensures |r| <= |sources|
    ensures forall k :: 0 <= k < |r| ==> r[k].src != "" && r[k] in sources
  {
    if sources == [] then []
    else
      var init := sources[..|sources| - 1];
      var source := sources[|sources| - 1];
      var f := SourcesWithSrc(init);
      assert forall k :: 0 <= k < |f| ==> f[k] in sources by {
        forall k | 0 <= k < |f| ensures f[k] in sources {
          var j :| 0 <= j < |init| && init[j] == f[k];
          assert sources[j] == f[k];
        }
      }
      f + (if source.src == "" then [] else [source])
  }

  /** Filtering more sources only adds to the end of what the first ones give. */
  lemma {:induction false} SourcesWithSrcPrefix(sources: seq<SourceElement>, n: nat)
    requires n <= |sources|
    ensures |SourcesWithSrc(sources[..n])| <= |SourcesWithSrc(sources)|
    ensures SourcesWithSrc(sources)[..|SourcesWithSrc(sources[..n])|] == SourcesWithSrc(sources[..n])
    decreases |sources| - n
  {
    if n == |sources| {
      assert sources[..n] == sources;
    } else {
      var init := sources[..|sources| - 1];
      SourcesWithSrcPrefix(init, n);
      assert init[..n] == sources[..n];
    }
  }

  /** A source with a non-empty `src` is kept, right after the ones kept before it. */
  lemma SourcesWithSrcAt(sources: seq<SourceElement>, j: nat)
    requires j < |sources| && sources[j].src != ""
    ensures |SourcesWithSrc(sources[..j])| < |SourcesWithSrc(sources)|
    ensures SourcesWithSrc(sources)[|SourcesWithSrc(sources[..j])|] == sources[j]
  {
    assert sources[..j + 1][..j] == sources[..j];
    assert SourcesWithSrc(sources[..j + 1]) == SourcesWithSrc(sources[..j]) + [sources[j]];
    SourcesWithSrcPrefix(sources, j + 1);
  }

  /**
   * The video source at position `j` with a non-empty `src` gives the stream
   * right after those of the sources before it: its normalised URL,
   * labelled with its quality.
   */
  lemma SourceStreamOf(sources: seq<SourceElement>, j: nat)
    requires j < |sources| && sources[j].src != ""
    ensures var k := |SourcesWithSrc(sources[..j])|;
      && k < |SourceStreams(sources)|
      && SourceStreams(sources)[k].url == Absolutize(sources[j].src)
      && SourceStreams(sources)[k].quality == SourceQuality(sources[j])
  {
    SourcesWithSrcAt(sources, j);
    SourceStreamsAt(sources, |SourcesWithSrc(sources[..j])|);
  }

  /** Exactly the sources with a non-empty `src` are kept, each as often as it occurs. */
  lemma {:induction false} SourcesWithSrcMultiset(sources: seq<SourceElement>)
    ensures forall x :: multiset(SourcesWithSrc(sources))[x] == if x.src == "" then 0 else multiset(sources)[x]
  {
    if sources != [] {
      var init := sources[..|sources| - 1];
      SourcesWithSrcMultiset(init);
      assert sources == init + [sources[|sources| - 1]];
    }
  }

  /** Every video source with a non-empty `src` gives exactly one stream. */
  lemma {:induction false} SourceStreamsLength(sources: seq<SourceElement>)
    ensures |SourceStreams(sources)| == |SourcesWithSrc(sources)|
  {
    if sources != [] {
      SourceStreamsLength(sources[..|sources| - 1]);
    }
  }

  /** Stream `k` of the source pass is the stream of the `k`-th video source with a non-empty `src`. */
  lemma {:induction false} SourceStreamsAt(sources: seq<SourceElement>, k: nat)
    requires k < |SourcesWithSrc(sources)|
    ensures |SourceStreams(sources)| == |SourcesWithSrc(sources)|
    ensures SourceStreams(sources)[k] == SourceStream(SourcesWithSrc(sources)[k])
  {
    SourceStreamsLength(sources);
    var init := sources[..|sources| - 1];
    SourceStreamsLength(init);
    if k < |SourcesWithSrc(init)| {
      SourceStreamsAt(init, k);
    }
  }

  // ---------------------------------------------------------------- URLs in script text

  /** The characters `[^\s"']` admits. */
  predicate UrlChar(c: char) {
    !IsSpace(c) && c != '"' && c != '\''
  }

  /** Visible ASCII characters other than the two quotes are in the class. */
  lemma VisibleAsciiIsUrlChar(c: char)
    requires '!' <= c <= '~' && c != '"' && c != '\''
    ensures UrlChar(c)
  {
  }

  /** The length of the `https?://` that starts at `i`, 0 when none does. */
  function SchemeLength(s: string, i: nat): (r: nat)
    ensures r == 0 || r == 7 || r == 8
    ensures r > 0 ==> i + r <= |s|
  {
    if i + 8 <= |s| && s[i..i + 8] == "https://" then 8
    else if i + 7 <= |s| && s[i..i + 7] == "http://" then 7
    else 0
  }

  /** The end of the run of `[^\s"']` characters that starts at `j`. */
  function RunEnd(s: string, j: nat): (e: nat)
    requires j <= |s|
    ensures j <= e <= |s| && (e == |s| || !UrlChar(s[e]))
    ensures forall m :: j <= m < e ==> UrlChar(s[m])
    decreases |s| - j
  {
    if j < |s| && UrlChar(s[j]) then RunEnd(s, j + 1) else j
  }

  /**
   * Where a match of `/https?:\/\/[^\s"']+EXT[^\s"']*` at `i` ends: the
   * run after the scheme must hold `ext` after at least one character, and
   * the greedy tail then takes the run to its end.
   */
  function MatchEnd(s: string, ext: string, i: nat): (r: Option<nat>)
    requires i <= |s|
    ensures r.Some? ==> i < r.value <= |s|
  {
    var n := SchemeLength(s, i);
    if n == 0 then None
    else
      var e := RunEnd(s, i + n);
      if i + n + 1 <= e && Contains(s[i + n + 1..e], ext) then Some(e) else None
  }

  /** `content.match(regex)` for the global regex with extension `ext`: the matches from `i` on, left to right. */
  function Scan(s: string, ext: string, i: nat): (r: seq<string>)
    requires i <= |s|
    decreases |s| - i
  {
    if i == |s| then []
    else match MatchEnd(s, ext, i)
      case Some(e) => [s[i..e]] + Scan(s, ext, e)
      case None => Scan(s, ext, i + 1)
  }

  /** The shape of a match of the URL regex: a scheme, then characters of the class, with `ext` inside. */
  predicate MatchLike(m: string, ext: string) {
    && (StartsWith(m, "http://") || StartsWith(m, "https://"))
    && Contains(m, ext)
    && forall k :: 0 <= k < |m| ==> UrlChar(m[k])
  }

  /** Every match found has the shape of the regex. */
  lemma {:induction false} ScanShape(s: string, ext: string, i: nat)
    requires i <= |s|
    ensures forall m :: m in Scan(s, ext, i) ==> MatchLike(m, ext)
    decreases |s| - i
  {
    if i < |s| {
      match MatchEnd(s, ext, i)
      case Some(e) =>
        ScanShape(s, ext, e);
        MatchShape(s, ext, i);
      case None =>
        ScanShape(s, ext, i + 1);
    }
  }

  lemma MatchShape(s: string, ext: string, i: nat)
    requires i <= |s| && MatchEnd(s, ext, i).Some?
    ensures var m := s[i..MatchEnd(s, ext, i).value];
      && (StartsWith(m, "http://") || StartsWith(m, "https://"))
      && Contains(m, ext)
      && forall k :: 0 <= k < |m| ==> UrlChar(m[k])
  {
    MatchScheme(s, ext, i);
    MatchHasExt(s, ext, i);
    MatchChars(s, ext, i);
  }

  lemma MatchScheme(s: string, ext: string, i: nat)
    requires i <= |s| && MatchEnd(s, ext, i).Some?
    ensures var m := s[i..MatchEnd(s, ext, i).value];
      StartsWith(m, "http://") || StartsWith(m, "https://")
  {
    var n := SchemeLength(s, i);
    var m := s[i..MatchEnd(s, ext, i).value];
    assert n <= |m|;
    assert m[..n] == s[i..i + n];
  }

  lemma MatchHasExt(s: string, ext: string, i: nat)
    requires i <= |s| && MatchEnd(s, ext, i).Some?
    ensures Contains(s[i..MatchEnd(s, ext, i).value], ext)
  {
    var n := SchemeLength(s, i);
    var e := MatchEnd(s, ext, i).value;
    var m := s[i..e];
    var run := s[i + n + 1..e];
    var k := IndexOf(run, ext).value;
    assert run == m[n + 1..];
    assert m[n + 1 + k..n + 1 + k + |ext|] == run[k..k + |ext|];
    ContainsAt(m, ext, n + 1 + k);
  }

  lemma MatchChars(s: string, ext: string, i: nat)
    requires i <= |s| && MatchEnd(s, ext, i).Some?
    ensures var m := s[i..MatchEnd(s, ext, i).value];
      forall k :: 0 <= k < |m| ==> UrlChar(m[k])
  {
    var n := SchemeLength(s, i);
    var e := MatchEnd(s, ext, i).value;
    assert e == RunEnd(s, i + n);
    forall k | i <= k < i + n ensures UrlChar(s[k]) {
      assert s[k] in "https://";
    }
  }

  /** No match starts at a character other than `h`, so a stretch without `h` is skipped. */
  lemma {:induction false} ScanSkips(s: string, ext: string, i: nat, j: nat)
    requires i <= j <= |s|
    requires forall k :: i <= k < j ==> s[k] != 'h'
    ensures Scan(s, ext, i) == Scan(s, ext, j)
    decreases j - i
  {
    if i < j {
      if i + 8 <= |s| {
        assert s[i..i + 8][0] == s[i];
      }
      if i + 7 <= |s| {
        assert s[i..i + 7][0] == s[i];
      }
      assert MatchEnd(s, ext, i).None?;
      ScanSkips(s, ext, i + 1, j);
    }
  }

  /** The run of URL characters from `j` ends at the first character outside the class. */
  lemma {:induction false} RunEndAt(s: string, j: nat, e: nat)
    requires j <= e <= |s|
    requires forall k :: j <= k < e ==> UrlChar(s[k])
    requires e == |s| || !UrlChar(s[e])
    ensures RunEnd(s, j) == e
    decreases e - j
  {
    if j < e {
      RunEndAt(s, j + 1, e);
    }
  }

  /** A URL of the expected shape, followed by a character outside the class, is matched whole. */
  lemma MatchLoneUrl(pre: string, url: string, post: string, ext: string)
    requires post == [] || !UrlChar(post[0])
    requires StartsWith(url, "https://") || StartsWith(url, "http://")
    requires forall k :: 0 <= k < |url| ==> UrlChar(url[k])
    requires |url| >= 9 && Contains(url[9..], ext)
    ensures MatchEnd(pre + url + post, ext, |pre|) == Some(|pre| + |url|)
  {
    var n := SchemeLength(pre + url + post, |pre|);
    LoneScheme(pre, url, post);
    LoneRun(pre, url, post, n);
    InfixSlice(pre, url, post, n + 1, |url|);
    LoneExt(url, ext, n);
  }

  lemma LoneScheme(pre: string, url: string, post: string)
    requires StartsWith(url, "https://") || StartsWith(url, "http://")
    ensures SchemeLength(pre + url + post, |pre|) == if StartsWith(url, "https://") then 8 else 7
  {
    if StartsWith(url, "https://") {
      InfixSlice(pre, url, post, 0, 8);
      assert url[0..8] == url[..8];
    } else {
      InfixSlice(pre, url, post, 0, 7);
      assert url[0..7] == url[..7];
      InfixAt(pre, url, post, 4);
    }
  }

  lemma LoneRun(pre: string, url: string, post: string, n: nat)
    requires n <= |url|
    requires forall k :: 0 <= k < |url| ==> UrlChar(url[k])
    requires post == [] || !UrlChar(post[0])
    ensures RunEnd(pre + url + post, |pre| + n) == |pre| + |url|
  {
    var s := pre + url + post;
    var i, e := |pre|, |pre| + |url|;
    forall k | i + n <= k < e ensures UrlChar(s[k]) {
      InfixAt(pre, url, post, k - i);
    }
    assert e < |s| ==> s[e] == post[0];
    RunEndAt(s, i + n, e);
  }

  lemma LoneExt(url: string, ext: string, n: nat)
    requires n + 1 <= 9 <= |url| && Contains(url[9..], ext)
    ensures Contains(url[n + 1..|url|], ext)
  {
    assert url[n + 1..9] + url[9..] + [] == url[n + 1..|url|];
    ContainsInfix(url[n + 1..9], url[9..], [], ext);
  }

  /**
   * A URL standing alone in script text, with no `h` before or after it and
   * a character outside the class right after it, is found as it is and
   * nothing else is found.
   */
  lemma ScanLoneUrl(pre: string, url: string, post: string, ext: string)
    requires forall k :: 0 <= k < |pre| ==> pre[k] != 'h'
    requires forall k :: 0 <= k < |post| ==> post[k] != 'h'
    requires post == [] || !UrlChar(post[0])
    requires StartsWith(url, "https://") || StartsWith(url, "http://")
    requires forall k :: 0 <= k < |url| ==> UrlChar(url[k])
    requires |url| >= 9 && Contains(url[9..], ext)
    ensures Scan(pre + url + post, ext, 0) == [url]
  {
    var s := pre + url + post;
    var i, e := |pre|, |pre| + |url|;
    assert Scan(s, ext, 0) == Scan(s, ext, i) by {
      forall k | 0 <= k < i ensures s[k] != 'h' {
        assert s[k] == pre[k];
      }
      ScanSkips(s, ext, 0, i);
    }
    assert Scan(s, ext, e) == [] by {
      forall k | e <= k < |s| ensures s[k] != 'h' {
        assert s[k] == post[k - e];
      }
      ScanSkips(s, ext, e, |s|);
    }
    MatchLoneUrl(pre, url, post, ext);
    assert s[i..e] == url;
  }

  /** A match lies inside the text, so it can only be found where the extension occurs. */
  lemma MatchWithin(s: string, ext: string, i: nat)
    requires i <= |s| && MatchEnd(s, ext, i).Some?
    ensures Contains(s, ext)
  {
    var e := MatchEnd(s, ext, i).value;
    MatchHasExt(s, ext, i);
    ContainsInfix(s[..i], s[i..e], s[e..], ext);
    assert s[..i] + s[i..e] + s[e..] == s;
  }

  /** Text without the extension holds no match. */
  lemma {:induction false} ScanWithoutExt(s: string, ext: string, i: nat)
    requires i <= |s| && !Contains(s, ext)
    ensures Scan(s, ext, i) == []
    decreases |s| - i
  {
    if i < |s| {
      if MatchEnd(s, ext, i).Some? {
        MatchWithin(s, ext, i);
        assert false;
      }
      ScanWithoutExt(s, ext, i + 1);
    }
  }

  /** `url.replace(/['"\\]/g, '')`: every quote and backslash removed. */
  function StripQuotes(url: string): (r: string)
    ensures |r| <= |url|
    ensures forall k :: 0 <= k < |r| ==> r[k] != '\'' && r[k] != '"' && r[k] != '\\'
  {
    if url == [] then []
    else
      var c := url[|url| - 1];
      StripQuotes(url[..|url| - 1]) + (if c == '\'' || c == '"' || c == '\\' then [] else [c])
  }

  /** Stripping works piece by piece. */
  lemma {:induction false} StripQuotesAppend(a: string, b: string)
    ensures StripQuotes(a + b) == StripQuotes(a) + StripQuotes(b)
    decreases |b|
  {
    if b == [] {
      assert a + b == a;
    } else {
      var init, c := b[..|b| - 1], b[|b| - 1];
      var tail := if c == '\'' || c == '"' || c == '\\' then [] else [c];
      assert (a + b)[..|a + b| - 1] == a + init;
      assert (a + b)[|a + b| - 1] == c;
      assert StripQuotes(a + b) == StripQuotes(a + init) + tail;
      assert StripQuotes(b) == StripQuotes(init) + tail;
      StripQuotesAppend(a, init);
    }
  }

  /** A string without quotes or backslashes is left as it is. */
  lemma {:induction false} StripQuotesClean(a: string)
    requires forall k :: 0 <= k < |a| ==> a[k] != '\'' && a[k] != '"' && a[k] != '\\'
    ensures StripQuotes(a) == a
  {
    if a != [] {
      StripQuotesClean(a[..|a| - 1]);
    }
  }

  /** A piece without quotes or backslashes survives stripping intact. */
  lemma StripQuotesInfix(a: string, x: string, b: string)
    requires forall k :: 0 <= k < |x| ==> x[k] != '\'' && x[k] != '"' && x[k] != '\\'
    ensures StripQuotes(a + x + b) == StripQuotes(a) + x + StripQuotes(b)
  {
    StripQuotesAppend(a + x, b);
    StripQuotesAppend(a, x);
    StripQuotesClean(x);
  }

  /** A cleaned URL keeps its `http://` or `https://` scheme. */
  lemma StripQuotesKeepsScheme(m: string)
    requires StartsWith(m, "http://") || StartsWith(m, "https://")
    ensures StartsWith(StripQuotes(m), "http://") || StartsWith(StripQuotes(m), "https://")
  {
    var n := if StartsWith(m, "https://") then 8 else 7;
    var scheme := m[..n];
    assert scheme == "https://" || scheme == "http://";
    SplitAround(m, 0, n);
    StripQuotesInfix([], scheme, m[n..]);
    StripQuotesClean([]);
    var r := scheme + StripQuotes(m[n..]);
    assert r[..n] == scheme;
  }

  /** A cleaned URL keeps an extension that has no quote or backslash in it. */
  lemma StripQuotesKeepsExt(m: string, ext: string)
    requires Contains(m, ext)
    requires forall k :: 0 <= k < |ext| ==> ext[k] != '\'' && ext[k] != '"' && ext[k] != '\\'
    ensures Contains(StripQuotes(m), ext)
  {
    var k := IndexOf(m, ext).value;
    var a, b := m[..k], m[k + |ext|..];
    SplitAround(m, k, |ext|);
    StripQuotesInfix(a, ext, b);
    var r := StripQuotes(a) + ext + StripQuotes(b);
    assert r[|StripQuotes(a)|..|StripQuotes(a)| + |ext|] == ext;
    ContainsAt(r, ext, |StripQuotes(a)|);
  }

  /** The streams of the matches `urls`, each cleaned and labelled `quality`. */
  function Tagged(urls: seq<string>, quality: string): (r: seq<Stream>)
    ensures |r| == |urls|
  {
    if urls == [] then [] else Tagged(urls[..|urls| - 1], quality) + [MakeStream(StripQuotes(urls[|urls| - 1]), quality)]
  }

  /** Stream `k` comes from match `k`, cleaned and labelled. */
  lemma {:induction false} TaggedAt(urls: seq<string>, quality: string, k: nat)
    requires k < |urls|
    ensures Tagged(urls, quality)[k] == MakeStream(StripQuotes(urls[k]), quality)
  {
    if k < |urls| - 1 {
      TaggedAt(urls[..|urls| - 1], quality, k);
    }
  }

  /** The streams of one script: its `.m3u8` URLs labelled `HLS`, then its `.mp4` URLs labelled `MP4`. */
  function ScriptStreams(content: string): seq<Stream> {
    Tagged(Scan(content, ".m3u8", 0), "HLS") + Tagged(Scan(content, ".mp4", 0), "MP4")
  }

  function AllScriptStreams(scripts: seq<string>): seq<Stream> {
    if scripts == [] then []
    else AllScriptStreams(scripts[..|scripts| - 1]) + ScriptStreams(scripts[|scripts| - 1])
  }

  /** The scripts up to `i` give the streams of the scripts before `i` followed by those of script `i`. */
  lemma AllScriptStreamsStep(scripts: seq<string>, i: nat)
    requires i < |scripts|
    ensures AllScriptStreams(scripts[..i + 1]) == AllScriptStreams(scripts[..i]) + ScriptStreams(scripts[i])
  {
    assert scripts[..i + 1][..i] == scripts[..i];
  }

  /** Every stream found in a script has an `http(s)://` URL with its extension in it, and no quote or blank. */
  lemma ScriptStreamShape(content: string, k: nat)
    requires k < |ScriptStreams(content)|
    ensures var st := ScriptStreams(content)[k];
      && (StartsWith(st.url, "http://") || StartsWith(st.url, "https://"))
      && (st.quality == "HLS" ==> Contains(st.url, ".m3u8"))
      && (st.quality == "MP4" ==> Contains(st.url, ".mp4"))
      && forall j :: 0 <= j < |st.url| ==> UrlChar(st.url[j]) && st.url[j] != '\\'
  {
    ScanShape(content, ".m3u8", 0);
    ScanShape(content, ".mp4", 0);
    TaggedPairShape(Scan(content, ".m3u8", 0), Scan(content, ".mp4", 0), k);
  }

  /** The streams of `.m3u8` matches labelled `HLS` followed by those of `.mp4` matches labelled `MP4`. */
  lemma TaggedPairShape(hls: seq<string>, mp4: seq<string>, k: nat)
    requires forall m :: m in hls ==> MatchLike(m, ".m3u8")
    requires forall m :: m in mp4 ==> MatchLike(m, ".mp4")
    requires k < |hls| + |mp4|
    ensures var st := (Tagged(hls, "HLS") + Tagged(mp4, "MP4"))[k];
      && (StartsWith(st.url, "http://") || StartsWith(st.url, "https://"))
      && (st.quality == "HLS" ==> Contains(st.url, ".m3u8"))
      && (st.quality == "MP4" ==> Contains(st.url, ".mp4"))
      && forall j :: 0 <= j < |st.url| ==> UrlChar(st.url[j]) && st.url[j] != '\\'
  {
    var tagged := Tagged(hls, "HLS");
    if k < |hls| {
      assert (tagged + Tagged(mp4, "MP4"))[k] == tagged[k];
      TaggedMatchShape(hls, ".m3u8", "HLS", k);
    } else {
      assert (tagged + Tagged(mp4, "MP4"))[k] == Tagged(mp4, "MP4")[k - |hls|];
      TaggedMatchShape(mp4, ".mp4", "MP4", k - |hls|);
    }
  }

  /** The stream of the `k`-th match, cleaned: still a URL of the shape, with its label. */
  lemma TaggedMatchShape(urls: seq<string>, ext: string, quality: string, k: nat)
    requires forall m :: m in urls ==> MatchLike(m, ext)
    requires k < |urls|
    requires forall j :: 0 <= j < |ext| ==> ext[j] != '\'' && ext[j] != '"' && ext[j] != '\\'
    ensures var st := Tagged(urls, quality)[k];
      && st.quality == quality
      && (StartsWith(st.url, "http://") || StartsWith(st.url, "https://"))
      && Contains(st.url, ext)
      && forall j :: 0 <= j < |st.url| ==> UrlChar(st.url[j]) && st.url[j] != '\\'
  {
    TaggedAt(urls, quality, k);
    assert urls[k] in urls;
    StripQuotesKeepsScheme(urls[k]);
    StripQuotesKeepsExt(urls[k], ext);
    StripQuotesKeepsClass(urls[k]);
  }

  /**
   * A quoted `.m3u8` URL with a query in a script gives one `HLS` stream at
   * exactly that URL, query included and quotes excluded, and no `MP4` stream.
   */
  lemma ScriptStreamsExample(content: string)
    requires content == "u=\"" + "https://c.io/v.m3u8?t=1" + "\";"
    ensures ScriptStreams(content) == [MakeStream("https://c.io/v.m3u8?t=1", "HLS")]
  {
    var url := "https://c.io/v.m3u8?t=1";
    ExampleUrlShape(url);
    ExampleHls(content, url);
    ExampleNoMp4(content);
    StripQuotesClean(url);
  }

  lemma ExampleUrlShape(url: string)
    requires url == "https://c.io/v.m3u8?t=1"
    ensures forall k :: 0 <= k < |url| ==> UrlChar(url[k]) && url[k] != '\'' && url[k] != '"' && url[k] != '\\'
  {
    forall k | 0 <= k < |url| ensures UrlChar(url[k]) && url[k] != '\'' && url[k] != '"' && url[k] != '\\' {
      assert '!' <= url[k] <= '~' && url[k] != '\'' && url[k] != '"' && url[k] != '\\';
      VisibleAsciiIsUrlChar(url[k]);
    }
  }

  lemma ExampleHls(content: string, url: string)
    requires url == "https://c.io/v.m3u8?t=1" && content == "u=\"" + url + "\";"
    requires forall k :: 0 <= k < |url| ==> UrlChar(url[k])
    ensures Scan(content, ".m3u8", 0) == [url]
  {
    var pre, post := "u=\"", "\";";
    assert url[..8] == "https://";
    assert url[9..][5..10] == ".m3u8";
    ContainsAt(url[9..], ".m3u8", 5);
    ScanLoneUrl(pre, url, post, ".m3u8");
  }

  lemma ExampleNoMp4(content: string)
    requires content == "u=\"" + "https://c.io/v.m3u8?t=1" + "\";"
    ensures Scan(content, ".mp4", 0) == []
  {
    assert forall k :: 0 <= k < |content| ==> content[k] != '4';
    NotContainsWithout(content, ".mp4", 3);
    ScanWithoutExt(content, ".mp4", 0);
  }

  /** Stripping keeps only characters of the input. */
  lemma {:induction false} StripQuotesKeepsClass(m: string)
    requires forall k :: 0 <= k < |m| ==> UrlChar(m[k])
    ensures forall k :: 0 <= k < |StripQuotes(m)| ==> UrlChar(StripQuotes(m)[k])
  {
    if m != [] {
      StripQuotesKeepsClass(m[..|m| - 1]);
    }
  }

  // ---------------------------------------------------------------- de-duplication

  function Urls(streams: seq<Stream>): set<string> {
    set k | 0 <= k < |streams| :: streams[k].url
  }

  /** The streams in order, each dropped when an earlier one has the same URL. */
  function Dedup(streams: seq<Stream>): (r: seq<Stream>)
    ensures |r| <= |streams|
    ensures forall k :: 0 <= k < |r| ==> r[k] in streams
  {
    if streams == [] then []
    else
      var init := streams[..|streams| - 1];
      var last := streams[|streams| - 1];
      var d := Dedup(init);
      assert forall k :: 0 <= k < |d| ==> d[k] in streams by {
        forall k | 0 <= k < |d| ensures d[k] in streams {
          var j :| 0 <= j < |init| && init[j] == d[k];
          assert streams[j] == d[k];
        }
      }
      if last.url in Urls(init) then d else d + [last]
  }

  lemma UrlsAppend(a: seq<Stream>, x: Stream)
    ensures Urls(a + [x]) == Urls(a) + {x.url}
  {
    assert forall k :: 0 <= k < |a| ==> (a + [x])[k] == a[k];
    assert (a + [x])[|a|] == x;
  }

  /** De-duplication keeps every URL. */
  lemma {:induction false} DedupUrls(streams: seq<Stream>)
    ensures Urls(Dedup(streams)) == Urls(streams)
  {
    if streams != [] {
      var init := streams[..|streams| - 1];
      var last := streams[|streams| - 1];
      DedupUrls(init);
      assert streams == init + [last];
      UrlsAppend(init, last);
      if last.url !in Urls(init) {
        UrlsAppend(Dedup(init), last);
      }
    }
  }

  /** No two de-duplicated streams share a URL. */
  lemma {:induction false} DedupUnique(streams: seq<Stream>)
    ensures forall a, b :: 0 <= a < b < |Dedup(streams)| ==> Dedup(streams)[a].url != Dedup(streams)[b].url
  {
    if streams != [] {
      var init := streams[..|streams| - 1];
      var last := streams[|streams| - 1];
      DedupUnique(init);
      DedupUrls(init);
      var d := Dedup(init);
      if last.url !in Urls(init) {
        forall a | 0 <= a < |d| ensures d[a].url != last.url {
          assert d[a].url in Urls(d);
        }
      }
    }
  }

  /** A stream whose URL no earlier stream has is kept. */
  lemma {:induction false} DedupKeepsFirst(streams: seq<Stream>, j: nat)
    requires j < |streams| && streams[j].url !in Urls(streams[..j])
    ensures streams[j] in Dedup(streams)
  {
    var init := streams[..|streams| - 1];
    if j < |streams| - 1 {
      assert init[..j] == streams[..j];
      DedupKeepsFirst(init, j);
    } else {
      assert init == streams[..j];
      assert Dedup(streams) == Dedup(init) + [streams[j]];
    }
  }

  /** A stream whose URL an earlier stream has is dropped, unless an equal stream was kept. */
  lemma {:induction false} DedupDropsLater(streams: seq<Stream>, j: nat, x: Stream)
    requires j < |streams| && streams[j].url in Urls(streams[..j])
    requires x in Dedup(streams) && x.url == streams[j].url
    ensures exists i :: 0 <= i < j && streams[i] == x
  {
    DedupUnique(streams);
    var d := Dedup(streams);
    var i :| 0 <= i < j && streams[i].url == streams[j].url;
    var i0 := FirstWithUrl(streams, i);
    DedupKeepsFirst(streams, i0);
    var a :| 0 <= a < |d| && d[a] == x;
    var b :| 0 <= b < |d| && d[b] == streams[i0];
    assert a == b;
  }

  /** The first stream with the same URL as `streams[i]`. */
  lemma {:induction false} FirstWithUrl(streams: seq<Stream>, i: nat) returns (i0: nat)
    requires i < |streams|
    ensures i0 <= i && streams[i0].url == streams[i].url && streams[i0].url !in Urls(streams[..i0])
    decreases i
  {
    if streams[i].url in Urls(streams[..i]) {
      var k :| 0 <= k < i && streams[..i][k].url == streams[i].url;
      i0 := FirstWithUrl(streams, k);
    } else {
      i0 := i;
    }
  }

  /** Streams whose URLs are already distinct are all kept, in order. */
  lemma {:induction false} DedupOfDistinct(streams: seq<Stream>)
    requires forall a, b :: 0 <= a < b < |streams| ==> streams[a].url != streams[b].url
    ensures Dedup(streams) == streams
  {
    if streams != [] {
      var init := streams[..|streams| - 1];
      DedupOfDistinct(init);
      assert streams[|streams| - 1].url !in Urls(init);
      assert init + [streams[|streams| - 1]] == streams;
    }
  }

  /** De-duplicating twice is de-duplicating once. */
  lemma DedupIdempotent(streams: seq<Stream>)
    ensures Dedup(Dedup(streams)) == Dedup(streams)
  {
    DedupUnique(streams);
    DedupOfDistinct(Dedup(streams));
  }

  /** Streams appended later never disturb what de-duplication kept of the earlier ones. */
  lemma {:induction false} DedupPrefix(a: seq<Stream>, b: seq<Stream>)
    ensures |Dedup(a)| <= |Dedup(a + b)| && Dedup(a + b)[..|Dedup(a)|] == Dedup(a)
    decreases |b|
  {
    if b == [] {
      assert a + b == a;
    } else {
      var b0 := b[..|b| - 1];
      DedupPrefix(a, b0);
      assert (a + b)[..|a + b| - 1] == a + b0;
    }
  }

  /**
   * The kept streams are a sub-list of the input, in input order: stream `k`
   * of the result is input stream `idx[k]`, with `idx` strictly increasing.
   */
  lemma {:induction false} DedupIndices(streams: seq<Stream>) returns (idx: seq<nat>)
    ensures |idx| == |Dedup(streams)|
    ensures forall k :: 0 <= k < |idx| ==> idx[k] < |streams| && streams[idx[k]] == Dedup(streams)[k]
    ensures forall i, j :: 0 <= i < j < |idx| ==> idx[i] < idx[j]
  {
    if streams == [] {
      idx := [];
    } else {
      var init := streams[..|streams| - 1];
      var sub := DedupIndices(init);
      if streams[|streams| - 1].url in Urls(init) {
        idx := sub;
      } else {
        idx := sub + [|streams| - 1];
      }
    }
  }

  /**
   * A page whose script holds one URL with both extensions gives an `HLS`
   * and an `MP4` stream for it, in that order; de-duplication keeps the
   * `HLS` one.
   */
  lemma BothExtensions(pre: string, url: string, post: string)
    requires forall k :: 0 <= k < |pre| ==> pre[k] != 'h'
    requires forall k :: 0 <= k < |post| ==> post[k] != 'h'
    requires post == [] || !UrlChar(post[0])
    requires StartsWith(url, "https://") || StartsWith(url, "http://")
    requires forall k :: 0 <= k < |url| ==> UrlChar(url[k]) && url[k] != '\\'
    requires |url| >= 9 && Contains(url[9..], ".m3u8") && Contains(url[9..], ".mp4")
    ensures ScriptStreams(pre + url + post) == [MakeStream(url, "HLS"), MakeStream(url, "MP4")]
    ensures Dedup(ScriptStreams(pre + url + post)) == [MakeStream(url, "HLS")]
  {
    var content := pre + url + post;
    var h, m := MakeStream(url, "HLS"), MakeStream(url, "MP4");
    assert Scan(content, ".m3u8", 0) == [url] by {
      ScanLoneUrl(pre, url, post, ".m3u8");
    }
    assert Scan(content, ".mp4", 0) == [url] by {
      ScanLoneUrl(pre, url, post, ".mp4");
    }
    assert Tagged([url], "HLS") == [h] && Tagged([url], "MP4") == [m] by {
      TaggedClean(url, "HLS");
      TaggedClean(url, "MP4");
    }
    assert ScriptStreams(content) == [h, m];
    DedupSameUrl(h, m);
  }

  /** A single match without quotes or backslashes gives a stream at exactly that URL. */
  lemma TaggedClean(url: string, quality: string)
    requires forall k :: 0 <= k < |url| ==> url[k] != '\'' && url[k] != '"' && url[k] != '\\'
    ensures Tagged([url], quality) == [MakeStream(url, quality)]
  {
    StripQuotesClean(url);
  }

  /** Of two streams with the same URL, de-duplication keeps the first. */
  lemma DedupSameUrl(first: Stream, second: Stream)
    requires first.url == second.url
    ensures Dedup([first, second]) == [first]
  {
    assert [first, second][..1] == [first];
    assert [first][0].url == second.url;
    assert second.url in Urls([first]);
  }

  // ---------------------------------------------------------------- the video list

  /** All candidate streams in the order the three passes record them. */
  function Candidates(page: VideoPage): seq<Stream> {
    IframeStreams(page.iframes) + SourceStreams(page.sources) + AllScriptStreams(page.scripts)
  }

  /** The video list starts with what de-duplication keeps of the iframe streams, in their order. */
  lemma VideoListIframesFirst(page: VideoPage)
    ensures var kept := Dedup(IframeStreams(page.iframes));
      |kept| <= |Dedup(Candidates(page))| && Dedup(Candidates(page))[..|kept|] == kept
  {
    var i, rest := IframeStreams(page.iframes), SourceStreams(page.sources) + AllScriptStreams(page.scripts);
    AppendAssoc(i, SourceStreams(page.sources), AllScriptStreams(page.scripts));
    DedupPrefix(i, rest);
  }

  const ErrorPrefix: string := "Failed to extract video sources: "

  /**
   * `getVideoList`: `fetched` is what the request for the page yields, an
   * error message when it fails. The result is the de-duplicated candidate
   * list, or the error message behind the fixed prefix.
   */
  method GetVideoList(fetched: Result<VideoPage, string>) returns (r: Result<seq<Stream>, string>)
    ensures fetched.Failure? ==> r == Failure(ErrorPrefix + fetched.error)
    ensures fetched.Success? ==> r == Success(Dedup(Candidates(fetched.value)))
  {
    if fetched.Failure? {
      return Failure(ErrorPrefix + fetched.error);
    }
    var page := fetched.value;
    var streams := IframePass(page.iframes);
    streams := SourcePass(streams, page.sources);
    streams := ScriptPass(streams, page.scripts);
    var unique := DedupByUrl(streams);
    return Success(unique);
  }

  /** The iframe pass: a stream per iframe with a non-empty `src`, labelled by its server. */
  method IframePass(iframes: seq<string>) returns (streams: seq<Stream>)
    ensures streams == IframeStreams(iframes)
  {
    streams := [];
    for i := 0 to |iframes|
      invariant streams == IframeStreams(iframes[..i])
    {
      var src := iframes[i];
      assert iframes[..i + 1][..i] == iframes[..i];
      if src == "" {
        continue;
      }
      if !StartsWith(src, "http") {
        src := if StartsWith(src, "//") then "https:" + src else SourceBaseUrl + src;
      }
      var serverName := "Default";
      if Contains(src, "gogoanime") {
        serverName := "GoGoAnime";
      } else if Contains(src, "vidstreaming") {
        serverName := "VidStreaming";
      } else if Contains(src, "streamwish") {
        serverName := "StreamWish";
      } else if Contains(src, "filemoon") {
        serverName := "FileMoon";
      } else if Contains(src, "doodstream") {
        serverName := "DoodStream";
      }
      assert src == Absolutize(iframes[i]) && serverName == ServerName(src);
      streams := streams + [Stream(src, src, serverName, ProviderHeaders)];
    }
    assert iframes[..|iframes|] == iframes;
  }

  /** The video-source pass: a stream per source with a non-empty `src`. */
  method SourcePass(before: seq<Stream>, sources: seq<SourceElement>) returns (streams: seq<Stream>)
    ensures streams == before + SourceStreams(sources)
  {
    streams := before;
    for i := 0 to |sources|
      invariant streams == before + SourceStreams(sources[..i])
    {
      var source := sources[i];
      assert sources[..i + 1][..i] == sources[..i];
      var src := source.src;
      if src == "" {
        continue;
      }
      if !StartsWith(src, "http") {
        src := if StartsWith(src, "//") then "https:" + src else SourceBaseUrl + src;
      }
      var quality := OrElse(Or(source.labelAttr, source.dataQuality), "Direct");
      streams := streams + [Stream(src, src, quality, ProviderHeaders)];
    }
    assert sources[..|sources|] == sources;
  }

  /** The script pass: for each script, its `.m3u8` URLs and then its `.mp4` URLs. */
  method ScriptPass(before: seq<Stream>, scripts: seq<string>) returns (streams: seq<Stream>)
    ensures streams == before + AllScriptStreams(scripts)
  {
    streams := before;
    for i := 0 to |scripts|
      invariant streams == before + AllScriptStreams(scripts[..i])
    {
      AllScriptStreamsStep(scripts, i);
      AppendAssoc(before, AllScriptStreams(scripts[..i]), ScriptStreams(scripts[i]));
      streams := ScanScript(streams, scripts[i]);
    }
    assert scripts[..|scripts|] == scripts;
  }

  /** One script: its `.m3u8` URLs labelled `HLS`, then its `.mp4` URLs labelled `MP4`. */
  method ScanScript(before: seq<Stream>, content: string) returns (streams: seq<Stream>)
    ensures streams == before + ScriptStreams(content)
  {
    var hls := Scan(content, ".m3u8", 0);
    var mp4 := Scan(content, ".mp4", 0);
    streams := AppendTagged(before, hls, "HLS");
    streams := AppendTagged(streams, mp4, "MP4");
    AppendAssoc(before, Tagged(hls, "HLS"), Tagged(mp4, "MP4"));
  }

  /** The `forEach` over the matches of one regex: each match, cleaned, becomes a stream. */
  method AppendTagged(streams: seq<Stream>, urls: seq<string>, quality: string) returns (r: seq<Stream>)
    ensures r == streams + Tagged(urls, quality)
  {
    r := streams;
    for k := 0 to |urls|
      invariant r == streams + Tagged(urls[..k], quality)
    {
      var url := StripQuotes(urls[k]);
      assert urls[..k + 1][..k] == urls[..k];
      r := r + [Stream(url, url, quality, ProviderHeaders)];
    }
    assert urls[..|urls|] == urls;
  }

  /** The de-duplication loop with its set of URLs already seen. */
  method DedupByUrl(streams: seq<Stream>) returns (unique: seq<Stream>)
    ensures unique == Dedup(streams)
    ensures Urls(unique) == Urls(streams)
    ensures forall a, b :: 0 <= a < b < |unique| ==> unique[a].url != unique[b].url
  {
    unique := [];
    var urlSet: set<string> := {};
    for i := 0 to |streams|
      invariant unique == Dedup(streams[..i])
      invariant urlSet == Urls(streams[..i])
    {
      var stream := streams[i];
      assert streams[..i + 1][..i] == streams[..i];
      assert streams[..i + 1] == streams[..i] + [stream];
      UrlsAppend(streams[..i], stream);
      if stream.url !in urlSet {
        urlSet := urlSet + {stream.url};
        unique := unique + [stream];
      }
    }
    assert streams[..|streams|] == streams;
    DedupUrls(streams);
    DedupUnique(streams);
  }
}
