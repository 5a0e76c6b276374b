/**
 * Listing pages of the AllManga provider (`searchPage`, `getPopular`,
 * `getLatestUpdates`): every anchor to a `/bangumi/` page becomes a list
 * item, once per href, named from its image or its text.
 */
module AllMangaListing {
  import opened Wrappers
  import opened Strings
  import opened AllMangaUrls
  import opened Dom
  import opened Collect

  /** An anchor `a[href*="/bangumi/"]`: its href, its text and its first `<img>` descendant. */
  datatype Card = Card(href: string, text: string, img: Option<Element>)

  datatype ListItem = ListItem(name: string, link: string, imageUrl: string)

  /** `!name || name.trim() == ""` */
  predicate Blank(name: Option<string>) {
    name.None? || Trim(name.value) == ""
  }

  /** The image attribute the title preference reads first: `alt` for `title`, `title` otherwise. */
  function PreferredAttr(titlePref: string): string {
    if titlePref == "title" then "alt" else "title"
  }

  /** The name the image offers: the preferred attribute, or else `alt || title || ""`. */
  function ImgName(img: Element, titlePref: string): Option<string> {
    var preferred := Attr(img, PreferredAttr(titlePref));
    if !Blank(preferred) then preferred else Some(OrElse(Or(Attr(img, "alt"), Attr(img, "title")), ""))
  }

  /**
   * The trimmed display name of a card, or `None` when the card is skipped
   * because its image and its text offer no name.
   */
  function CardName(c: Card, titlePref: string): (r: Option<string>)
    ensures r.Some? ==> r.value != "" && Trim(r.value) == r.value
    ensures r.None? <==> (c.img.None? || Blank(ImgName(c.img.value, titlePref))) && Trim(c.text) == ""
  {
    var fromImg := if c.img.Some? then ImgName(c.img.value, titlePref) else Some("");
    var name := if !Blank(fromImg) then fromImg.value else Trim(c.text);
    TrimIdempotent(name);
    if Trim(name) == "" then None else Some(Trim(name))
  }

  /**
   * The order in which the name sources are tried: the preferred attribute,
   * then `alt || title`, then the text.
   */
  lemma CardNameOrder(c: Card, titlePref: string)
    ensures c.img.Some? && !Blank(Attr(c.img.value, PreferredAttr(titlePref)))
            ==> CardName(c, titlePref) == Some(Trim(Attr(c.img.value, PreferredAttr(titlePref)).value))
    ensures c.img.Some? && Blank(Attr(c.img.value, PreferredAttr(titlePref)))
            && !Blank(Or(Attr(c.img.value, "alt"), Attr(c.img.value, "title")))
            ==> CardName(c, titlePref) == Some(Trim(Or(Attr(c.img.value, "alt"), Attr(c.img.value, "title")).value))
    ensures (c.img.None? || Blank(ImgName(c.img.value, titlePref))) && Trim(c.text) != ""
            ==> CardName(c, titlePref) == Some(Trim(c.text))
  {
    TrimIdempotent(c.text);
  }

  /**
   * The image URL of a card: a truthy `src`, else a truthy `data-src`,
   * normalised; `""` when neither is truthy or the card has no image.
   */
  function CardImage(c: Card): (r: string)
    ensures r != "" ==> StartsWith(r, "http")
    ensures c.img.None? ==> r == ""
    ensures c.img.Some? && Truthy(Attr(c.img.value, "src")) ==> r == Absolutize(Attr(c.img.value, "src").value)
    ensures c.img.Some? && !Truthy(Attr(c.img.value, "src")) && Truthy(Attr(c.img.value, "data-src"))
            ==> r == Absolutize(Attr(c.img.value, "data-src").value)
    ensures c.img.Some? && !Truthy(Attr(c.img.value, "src")) && !Truthy(Attr(c.img.value, "data-src")) ==> r == ""
  {
    if c.img.Some? then NormalizeImage(OrElse(Or(Attr(c.img.value, "src"), Attr(c.img.value, "data-src")), ""))
    else ""
  }

  /** The item a card yields when its href has not been seen before. */
  function CardItem(c: Card, titlePref: string): (r: Option<ListItem>)
    ensures r.Some? ==> r.value.link == c.href && r.value.name != "" && Trim(r.value.name) == r.value.name
    ensures r.Some? <==> CardName(c, titlePref).Some?
    ensures r.Some? ==> r.value.name == CardName(c, titlePref).value && r.value.imageUrl == CardImage(c)
  {
    match CardName(c, titlePref)
    case None => None
    case Some(name) => Some(ListItem(name, c.href, CardImage(c)))
  }

  /** The hrefs of the first `n` cards: the `seen` set after `n` steps. */
  function Seen(cards: seq<Card>, n: nat): set<string>
    requires n <= |cards|
  {
    set i | 0 <= i < n :: cards[i].href
  }

  /** Visiting card `n - 1` adds its href to the `seen` set. */
  lemma SeenStep(cards: seq<Card>, n: nat)
    requires 0 < n <= |cards|
    ensures Seen(cards, n) == Seen(cards, n - 1) + {cards[n - 1].href}
  {
    forall h | h in Seen(cards, n) ensures h in Seen(cards, n - 1) + {cards[n - 1].href} {
      var i :| 0 <= i < n && cards[i].href == h;
      if i < n - 1 {
        assert cards[i].href in Seen(cards, n - 1);
      }
    }
    forall h | h in Seen(cards, n - 1) ensures h in Seen(cards, n) {
      var i :| 0 <= i < n - 1 && cards[i].href == h;
      assert cards[i].href in Seen(cards, n);
    }
    assert cards[n - 1].href in Seen(cards, n);
  }

  /** Card `i` is the first with its href. */
  predicate IsFirst(cards: seq<Card>, i: nat)
    requires i < |cards|
  {
    cards[i].href !in Seen(cards, i)
  }

  /** What visiting card `i` pushes: its item when it is the first with its href and has a name. */
  function OfferOf(cards: seq<Card>, titlePref: string): (Card, nat) -> Option<ListItem> {
    (c: Card, i: nat) => if i < |cards| && IsFirst(cards, i) then CardItem(c, titlePref) else None
  }

  /** What visiting each card pushes, card by card. */
  function Offers(cards: seq<Card>, titlePref: string): (r: seq<Option<ListItem>>)
    ensures |r| == |cards|
  {
    MapIndexed(cards, OfferOf(cards, titlePref), 0)
  }

  lemma OffersAt(cards: seq<Card>, titlePref: string, j: nat)
    requires j < |cards|
    ensures Offers(cards, titlePref)[j] == if IsFirst(cards, j) then CardItem(cards[j], titlePref) else None
  {
    MapIndexedAt(cards, OfferOf(cards, titlePref), 0, j);
  }

  /** The items pushed while visiting the first `n` cards. */
  function Listing(cards: seq<Card>, titlePref: string, n: nat): seq<ListItem>
    requires n <= |cards|
  {
    Present(Offers(cards, titlePref), n)
  }

  /**
   * The card loop of `searchPage` (and of its copy in `getLatestUpdates`):
   * a card whose href is in `seen` is dropped; otherwise its href is added
   * to `seen` before its name is looked for.
   */
  method ExtractCards(cards: seq<Card>, titlePref: string) returns (list: seq<ListItem>, hasNextPage: bool)
    ensures list == Listing(cards, titlePref, |cards|)
    ensures forall i, j :: 0 <= i < j < |list| ==> list[i].link != list[j].link
    ensures forall i :: 0 <= i < |list| ==> list[i].name != "" && Trim(list[i].name) == list[i].name
    ensures hasNextPage <==> |list| >= 20
  {
    var seen: set<string> := {};
    list := [];
    for i := 0 to |cards|
      invariant seen == Seen(cards, i)
      invariant list == Listing(cards, titlePref, i)
    {
      var link := cards[i].href;
      SeenStep(cards, i + 1);
      if link in seen {
        OffersAt(cards, titlePref, i);
        continue;
      }
      seen := seen + {link};
      var item := ReadCard(cards, titlePref, i);
      if item.None? {
        continue;
      }
      list := list + [item.value];
    }
    hasNextPage := |list| >= 20;
    ListingDistinct(cards, titlePref, |cards|);
    ListingNames(cards, titlePref, |cards|);
    forall i | 0 <= i < |list| ensures list[i].name != "" && Trim(list[i].name) == list[i].name {
      assert list[i] in list;
    }
  }

  /** The body of the card loop for a card that is the first with its href: its item, if it has a name. */
  method ReadCard(cards: seq<Card>, titlePref: string, i: nat) returns (item: Option<ListItem>)
    requires i < |cards| && IsFirst(cards, i)
    ensures item == Offers(cards, titlePref)[i]
  {
    OffersAt(cards, titlePref, i);
    var anime := cards[i];
    var name: Option<string> := Some("");
    if anime.img.Some? {
      name := Attr(anime.img.value, PreferredAttr(titlePref));
      if Blank(name) {
        name := Some(OrElse(Or(Attr(anime.img.value, "alt"), Attr(anime.img.value, "title")), ""));
      }
    }
    if Blank(name) {
      name := Some(Trim(anime.text));
    }
    if Blank(name) {
      return None;
    }
    var imageUrl := "";
    if anime.img.Some? {
      imageUrl := OrElse(Or(Attr(anime.img.value, "src"), Attr(anime.img.value, "data-src")), "");
      if imageUrl != "" && !StartsWith(imageUrl, "http") {
        imageUrl := if StartsWith(imageUrl, "//") then "https:" + imageUrl else SourceBaseUrl + imageUrl;
      }
    }
    item := Some(ListItem(Trim(name.value), anime.href, imageUrl));
  }

  /** Every listed item is the item of a card that is the first with its href. */
  lemma ListingSource(cards: seq<Card>, titlePref: string, n: nat)
    requires n <= |cards|
    ensures forall x :: x in Listing(cards, titlePref, n) ==>
              exists j :: 0 <= j < n && IsFirst(cards, j) && CardItem(cards[j], titlePref) == Some(x)
  {
    var offers := Offers(cards, titlePref);
    PresentSource(offers, n);
    forall x | x in Listing(cards, titlePref, n)
      ensures exists j :: 0 <= j < n && IsFirst(cards, j) && CardItem(cards[j], titlePref) == Some(x)
    {
      var j :| 0 <= j < n && offers[j] == Some(x);
      OffersAt(cards, titlePref, j);
    }
  }

  /** The link of every item listed after `n` cards is in the `seen` set after `n` cards. */
  lemma ListingLinksSeen(cards: seq<Card>, titlePref: string, n: nat)
    requires n <= |cards|
    ensures forall x :: x in Listing(cards, titlePref, n) ==> x.link in Seen(cards, n)
  {
    ListingSource(cards, titlePref, n);
    forall x | x in Listing(cards, titlePref, n) ensures x.link in Seen(cards, n) {
      var j :| 0 <= j < n && IsFirst(cards, j) && CardItem(cards[j], titlePref) == Some(x);
      assert cards[j].href in Seen(cards, n);
    }
  }

  /** No two listed items share a link. */
  lemma {:induction false} ListingDistinct(cards: seq<Card>, titlePref: string, n: nat)
    requires n <= |cards|
    ensures forall i, j :: 0 <= i < j < |Listing(cards, titlePref, n)| ==>
              Listing(cards, titlePref, n)[i].link != Listing(cards, titlePref, n)[j].link
  {
    if n > 0 {
      ListingDistinct(cards, titlePref, n - 1);
      var offers := Offers(cards, titlePref);
      if offers[n - 1].Some? {
        OffersAt(cards, titlePref, n - 1);
        ListingLinksSeen(cards, titlePref, n - 1);
        DistinctLinksAppend(Listing(cards, titlePref, n - 1), offers[n - 1].value);
      } else {
        assert Listing(cards, titlePref, n) == Listing(cards, titlePref, n - 1);
      }
    }
  }

  /** Appending an item whose link no earlier item has keeps the links distinct. */
  lemma DistinctLinksAppend(prev: seq<ListItem>, item: ListItem)
    requires forall i, j :: 0 <= i < j < |prev| ==> prev[i].link != prev[j].link
    requires forall x :: x in prev ==> x.link != item.link
    ensures var list := prev + [item];
      forall i, j :: 0 <= i < j < |list| ==> list[i].link != list[j].link
  {
    var list := prev + [item];
    forall i, j | 0 <= i < j < |list| ensures list[i].link != list[j].link {
      assert list[i] == prev[i] && prev[i] in prev;
      if j < |prev| {
        assert list[j] == prev[j];
      }
    }
  }

  /** Every listed name is non-empty and trimmed. */
  lemma ListingNames(cards: seq<Card>, titlePref: string, n: nat)
    requires n <= |cards|
    ensures forall x :: x in Listing(cards, titlePref, n) ==> x.name != "" && Trim(x.name) == x.name
  {
    ListingSource(cards, titlePref, n);
  }

  /** Every first card with a name is listed. */
  lemma ListingComplete(cards: seq<Card>, titlePref: string, n: nat, j: nat)
    requires j < n <= |cards|
    requires IsFirst(cards, j) && CardItem(cards[j], titlePref).Some?
    ensures CardItem(cards[j], titlePref).value in Listing(cards, titlePref, n)
  {
    OffersAt(cards, titlePref, j);
    PresentAt(Offers(cards, titlePref), n, j);
  }

  /**
   * An href is marked seen before the name is checked: when the first card
   * with an href has no name, no item with that link is listed, even if a
   * later card with the same href has one.
   */
  lemma ListingDropsUnnamedHref(cards: seq<Card>, titlePref: string, j: nat)
    requires j < |cards| && IsFirst(cards, j) && CardItem(cards[j], titlePref).None?
    ensures forall x :: x in Listing(cards, titlePref, |cards|) ==> x.link != cards[j].href
  {
    ListingSource(cards, titlePref, |cards|);
    forall x | x in Listing(cards, titlePref, |cards|) ensures x.link != cards[j].href {
      var k :| 0 <= k < |cards| && IsFirst(cards, k) && CardItem(cards[k], titlePref) == Some(x);
      if k < j {
        assert cards[k].href in Seen(cards, j);
      } else {
        assert cards[j].href in Seen(cards, k);
      }
    }
  }

  /** A page of cards with distinct hrefs that all have names lists every card. */
  lemma {:induction false} ListingOfDistinctNamedCards(cards: seq<Card>, titlePref: string, n: nat)
    requires n <= |cards|
    requires forall i, j :: 0 <= i < j < |cards| ==> cards[i].href != cards[j].href
    requires forall i :: 0 <= i < |cards| ==> CardName(cards[i], titlePref).Some?
    ensures |Listing(cards, titlePref, n)| == n
  {
    if n > 0 {
      ListingOfDistinctNamedCards(cards, titlePref, n - 1);
      assert IsFirst(cards, n - 1);
      OffersAt(cards, titlePref, n - 1);
    }
  }

  /** `getLatestUpdates`: the slug it requests, and the items of the page it receives. */
  method LatestUpdates(types: seq<string>, page: int, cards: seq<Card>, titlePref: string)
    returns (slug: string, list: seq<ListItem>, hasNextPage: bool)
    ensures slug == LatestSlug(types, page)
    ensures list == Listing(cards, titlePref, |cards|)
    ensures hasNextPage <==> |list| >= 20
  {
    slug := LatestSlug(types, page);
    list, hasNextPage := ExtractCards(cards, titlePref);
  }

  /** `searchPage`: the slug it requests and the listing of the cards on the page that request yields. */
  method SearchPage(query: string, encode: string -> string, kind: string, country: string, page: int,
                    cards: seq<Card>, titlePref: string)
    returns (slug: string, list: seq<ListItem>, hasNextPage: bool)
    ensures slug == SearchSlug(query, encode, kind, country, page)
    ensures list == Listing(cards, titlePref, |cards|)
    ensures hasNextPage <==> |list| >= 20
  {
    slug := BuildSearchSlug(query, encode, kind, country, page);
    list, hasNextPage := ExtractCards(cards, titlePref);
  }

  /** The slug of `searchPage`: the head for the query, then each filter that is set. */
  method BuildSearchSlug(query: string, encode: string -> string, kind: string, country: string, page: int)
    returns (slug: string)
    ensures slug == SearchSlug(query, encode, kind, country, page)
  {
    if |query| > 0 {
      slug := "/search?keyword=" + encode(query);
    } else {
      slug := "/anime";
    }
    ghost var head := slug;
    ghost var tr := if kind != "" then "&tr=" + kind else "";
    ghost var cty := if country != "" then "&cty=" + country else "";
    ghost var pg := if page > 1 then "&page=" + IntToString(page) else "";
    if kind != "" {
      slug := slug + ("&tr=" + kind);
    }
    assert slug == head + tr;
    if country != "" {
      slug := slug + ("&cty=" + country);
    }
    assert slug == (head + tr) + cty;
    if page > 1 {
      slug := slug + ("&page=" + IntToString(page));
    }
    assert slug == ((head + tr) + cty) + pg;
    AppendAssoc(head, tr, cty);
    AppendAssoc(head, tr + cty, pg);
  }

  /** `getPopular`: a search for the first preferred type, `sub` when none is chosen. */
  method Popular(types: seq<string>, page: int, cards: seq<Card>, titlePref: string)
    returns (slug: string, list: seq<ListItem>, hasNextPage: bool)
    ensures slug == PopularSlug(types, page)
    ensures list == Listing(cards, titlePref, |cards|)
    ensures hasNextPage <==> |list| >= 20
  {
    slug, list, hasNextPage := SearchPage("", s => s, if |types| > 0 then types[0] else "sub", "", page, cards, titlePref);
  }
}
