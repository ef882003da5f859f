/** `GET /api/links?q=...`: the visible rows, optionally narrowed by a search
    text, newest first, each projected onto its JSON record. */
module Listing {
  import opened Options
  import opened Text
  import opened Links

  /** Not soft-deleted: the `deletedAt: null` condition. */
  predicate Visible(link: Link) {
    link.deletedAt.None?
  }

  /** A query that trims to nothing applies no text filter. */
  predicate IsBlank(q: string) {
    Trim(q) == []
  }

  /** The `OR` of the two `contains` conditions. The untrimmed query is the
      search text; the database's case-insensitive mode is modelled by ASCII
      case folding. */
  predicate MatchesQuery(link: Link, q: string) {
    ContainsIgnoreCase(link.code, q) || ContainsIgnoreCase(link.targetUrl, q)
  }

  /** The complete `where` clause of the listing. */
  predicate Selected(link: Link, q: string) {
    Visible(link) && (IsBlank(q) || MatchesQuery(link, q))
  }

  /** The rows the `where` clause keeps, each as often as it occurs in the store. */
  function Select(store: Store, q: string): (rows: seq<Link>)
    ensures forall x :: multiset(rows)[x] == if Selected(x, q) then multiset(store)[x] else 0
  {
    if store == [] then []
    else
      assert store == [store[0]] + store[1..];
      (if Selected(store[0], q) then [store[0]] else []) + Select(store[1..], q)
  }

  /** `orderBy: { createdAt: 'desc' }`. */
  predicate NewestFirst(rows: seq<Link>) {
    forall i, j :: 0 <= i < j < |rows| ==> rows[i].createdAt >= rows[j].createdAt
  }

  /** Puts `x` into a newest-first sequence ahead of the first row that is not newer. */
  function InsertNewestFirst(x: Link, rows: seq<Link>): (r: seq<Link>)
    requires NewestFirst(rows)
    ensures NewestFirst(r)
    ensures multiset(r) == multiset(rows) + multiset{x}
  {
    if rows == [] || x.createdAt >= rows[0].createdAt then
      PrependNewest(x, rows);
      [x] + rows
    else
      var tail := InsertNewestFirst(x, rows[1..]);
      assert rows == [rows[0]] + rows[1..];
      NotOlderThanAll(rows[0], x, rows[1..], tail);
      PrependNewest(rows[0], tail);
      [rows[0]] + tail
  }

  /** A row no older than the head of a newest-first sequence can lead it. */
  lemma PrependNewest(h: Link, t: seq<Link>)
    requires NewestFirst(t)
    requires t == [] || h.createdAt >= t[0].createdAt
    ensures NewestFirst([h] + t)
  {
  }

  /** If `h` is no older than `x` and than every row of `rows`, it is no older
      than any row of a permutation of `rows` plus `x`. */
  lemma NotOlderThanAll(h: Link, x: Link, rows: seq<Link>, t: seq<Link>)
    requires multiset(t) == multiset(rows) + multiset{x}
    requires h.createdAt >= x.createdAt
    requires forall y :: y in rows ==> h.createdAt >= y.createdAt
    ensures forall y :: y in t ==> h.createdAt >= y.createdAt
  {
    forall y | y in t ensures h.createdAt >= y.createdAt {
      assert y in multiset(t);
    }
  }

  /** Sorts by `createdAt`, newest first. The order among rows created at the
      same instant is left open by the database; this sort fixes one. */
  function SortNewestFirst(rows: seq<Link>): (r: seq<Link>)
    ensures NewestFirst(r)
    ensures multiset(r) == multiset(rows)
  {
    if rows == [] then []
    else
      assert rows == [rows[0]] + rows[1..];
      InsertNewestFirst(rows[0], SortNewestFirst(rows[1..]))
  }

  /** The rows `findMany` returns: exactly the selected rows (with their
      multiplicities), newest first. */
  function ListRows(store: Store, q: string): (rows: seq<Link>)
    ensures NewestFirst(rows)
    ensures forall x :: multiset(rows)[x] == if Selected(x, q) then multiset(store)[x] else 0
    ensures forall i :: 0 <= i < |rows| ==> Visible(rows[i]) && rows[i] in store
  {
    var rows := SortNewestFirst(Select(store, q));
    ListedRowsAreSelected(store, q, rows);
    rows
  }

  /** Every row of a sequence holding exactly the selected rows is a visible row of the store. */
  lemma ListedRowsAreSelected(store: Store, q: string, rows: seq<Link>)
    requires forall x :: multiset(rows)[x] == if Selected(x, q) then multiset(store)[x] else 0
    ensures forall i :: 0 <= i < |rows| ==> Visible(rows[i]) && rows[i] in store
  {
    forall i | 0 <= i < |rows| ensures Visible(rows[i]) && rows[i] in store {
      assert rows[i] in multiset(rows);
      assert multiset(store)[rows[i]] > 0;
    }
  }

  /** `searchParams.get('q') ?? ''`. */
  function Query(q: Option<string>): string {
    q.GetOr("")
  }

  /** The GET handler: status 200 and, in the order of `ListRows`, one record
      per row with the row's code, its target as `url`, and the short URL
      built from the base URL and the code. */
  function Get(store: Store, q: Option<string>, baseUrlSetting: Option<string>): (r: Response)
    ensures r.status == 200 && r.payload.ListBody?
    ensures var rows := ListRows(store, Query(q));
            && |r.payload.links| == |rows|
            && forall i :: 0 <= i < |rows| ==>
                 && r.payload.links[i].code == rows[i].code
                 && r.payload.links[i].url == rows[i].targetUrl
                 && r.payload.links[i].shortUrl == BaseUrl(baseUrlSetting) + "/" + rows[i].code
                 && r.payload.links[i].clicks == rows[i].clicks
                 && r.payload.links[i].lastClickedAt == rows[i].lastClickedAt
                 && r.payload.links[i].createdAt == rows[i].createdAt
  {
    var rows := ListRows(store, Query(q));
    var base := BaseUrl(baseUrlSetting);
    Response(200, ListBody(seq(|rows|, i requires 0 <= i < |rows| => ToView(rows[i], base))))
  }

  /** A blank query lists every visible row: no text filter applies. */
  lemma BlankQueryListsAllVisible(store: Store, q: string)
    requires IsBlank(q)
    ensures forall x :: multiset(ListRows(store, q))[x] == if Visible(x) then multiset(store)[x] else 0
  {
  }

  /** A query is blank exactly when it consists of white space only. */
  lemma BlankIffAllSpace(q: string)
    ensures IsBlank(q) <==> AllSpace(q)
  {
  }

  /** A non-blank query lists exactly the visible rows whose code or target
      contains the query text, ignoring ASCII case. */
  lemma SearchListsExactlyMatches(store: Store, q: string, x: Link)
    requires !IsBlank(q)
    ensures x in ListRows(store, q) <==>
            x in store && Visible(x) &&
            ((exists i: nat :: i + |q| <= |x.code| && OccursAt(Lower(x.code), Lower(q), i)) ||
             (exists i: nat :: i + |q| <= |x.targetUrl| && OccursAt(Lower(x.targetUrl), Lower(q), i)))
  {
    ContainsIffOccurs(Lower(x.code), Lower(q));
    ContainsIffOccurs(Lower(x.targetUrl), Lower(q));
    assert x in ListRows(store, q) <==> multiset(ListRows(store, q))[x] > 0;
    assert x in store <==> multiset(store)[x] > 0;
  }
}
