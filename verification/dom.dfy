/**
 * The part of the host's HTML document the scrapers read: an element is its
 * text and its attributes. Selection by CSS selector is the host's; the
 * model receives the elements a selector returned.
 */
module Dom {
  import opened Wrappers

  datatype Element = Element(text: string, attrs: map<string, string>)

  /** `el.attr(name)`; an absent attribute is `null`. */
  function Attr(el: Element, name: string): Option<string> {
    if name in el.attrs then Some(el.attrs[name]) else None
  }
}
