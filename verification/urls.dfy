/** What the model assumes of the URL check. `isValidUrl` parses its argument
    with the WHATWG URL parser, a foreign library, and accepts it when the
    protocol is `http:` or `https:`. The parser is not modelled: the handlers
    take the check as a parameter, and the only property assumed of it is
    `UrlCheckSound` below. */
module Urls {
  import Text

  /** C0 control or space: the URL parser strips these from both ends of its input. */
  predicate IsC0OrSpace(c: char) {
    c as int <= 0x20
  }

  /** ASCII tab or newline: the URL parser removes these everywhere in its input. */
  predicate IsTabOrNewline(c: char) {
    c == '\t' || c == '\n' || c == '\r'
  }

  function StripLeadingC0(u: string): (r: string)
    ensures |r| <= |u|
  {
    if u != [] && IsC0OrSpace(u[0]) then StripLeadingC0(u[1..]) else u
  }

  function RemoveTabsAndNewlines(u: string): (r: string)
    ensures |r| <= |u|
  {
    if u == [] then []
    else (if IsTabOrNewline(u[0]) then [] else [u[0]]) + RemoveTabsAndNewlines(u[1..])
  }

  /** The URL parser would read the scheme `http` or `https` from `u`: after
      its preprocessing, the input starts, ignoring ASCII case, with `http:`
      or `https:`. */
  predicate HasWebScheme(u: string) {
    var n := Text.Lower(RemoveTabsAndNewlines(StripLeadingC0(u)));
    "http:" <= n || "https:" <= n
  }

  /** The assumption on the URL check: it accepts only web URLs. */
  ghost predicate UrlCheckSound(isValidUrl: string -> bool) {
    forall u :: isValidUrl(u) ==> HasWebScheme(u)
  }

  /** A URL with a web scheme has at least the five characters of `http:`;
      in particular the empty string is never accepted. */
  lemma WebSchemeIsNonEmpty(u: string)
    requires HasWebScheme(u)
    ensures |u| >= 5
  {
  }
}
