/** What the crawl needs from the outside world. */
module Fetch {
  import opened Wrappers
  import opened Texts
  import opened Html

  type Url = Text

  /** The network and `urllib.parse.urljoin` as the scraper sees them.
      `fetch(url)` is the parsed page, or `None` when `session.get` or
      `raise_for_status` raises a `RequestException`. Being a function, it
      gives the same page every time one URL is fetched, which a real server
      need not do. `urljoin(base, href)` is left uninterpreted. */
  datatype Web = Web(fetch: Url -> Option<Node>, urljoin: (Url, Url) -> Url)
}
