/** The `Link` table, the abstract store that replaces the database, and the
    JSON records the handlers answer with. */
module Links {
  import opened Options

  /** One row of the `Link` table. Timestamps are plain integers (for
      instance milliseconds since the epoch); a present `deletedAt` marks the
      row as soft-deleted. */
  datatype Link = Link(
    code: string,
    targetUrl: string,
    clicks: nat,
    lastClickedAt: Option<int>,
    createdAt: int,
    deletedAt: Option<int>)

  /** The table, one request at a time: the rows in insertion order. */
  type Store = seq<Link>

  /** `findUnique({ where: { code } })`: the row with that code, whether or not
      it is soft-deleted. */
  function FindUnique(store: Store, code: string): (r: Option<Link>)
    ensures r.Some? ==> r.value in store && r.value.code == code
    ensures r.None? <==> forall i :: 0 <= i < |store| ==> store[i].code != code
  {
    if store == [] then None
    else if store[0].code == code then Some(store[0])
    else FindUnique(store[1..], code)
  }

  /** Some row, deleted or not, already uses `code`. */
  predicate CodeTaken(store: Store, code: string) {
    FindUnique(store, code).Some?
  }

  /** The unique constraint on `code`, which the database enforces. */
  predicate UniqueCodes(store: Store) {
    forall i, j :: 0 <= i < j < |store| ==> store[i].code != store[j].code
  }

  /** The JSON record both handlers return for a row. */
  datatype LinkView = LinkView(
    code: string,
    url: string,
    shortUrl: string,
    clicks: nat,
    lastClickedAt: Option<int>,
    createdAt: int)

  /** Used when `NEXT_PUBLIC_BASE_URL` is not set. */
  const DefaultBaseUrl: string := "http://localhost:3000"

  /** `process.env.NEXT_PUBLIC_BASE_URL ?? 'http://localhost:3000'`; the
      environment variable is passed in as `setting`. */
  function BaseUrl(setting: Option<string>): string {
    setting.GetOr(DefaultBaseUrl)
  }

  /** The user-facing short link of `code`. */
  function ShortUrl(baseUrl: string, code: string): string {
    baseUrl + "/" + code
  }

  /** The projection of a row onto its JSON record. */
  function ToView(link: Link, baseUrl: string): LinkView {
    LinkView(link.code, link.targetUrl, ShortUrl(baseUrl, link.code),
             link.clicks, link.lastClickedAt, link.createdAt)
  }

  /** The JSON body of a response. */
  datatype Payload =
    | ErrorBody(error: string)
    | LinkBody(link: LinkView)
    | ListBody(links: seq<LinkView>)

  datatype Response = Response(status: int, payload: Payload)
}
