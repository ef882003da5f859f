/** Properties that connect the two handlers over a shared table. */
module Lifecycle {
  import opened Options
  import opened Text
  import opened Urls
  import opened Codes
  import opened Links
  import opened Listing
  import opened Creation

  /** What every row written by the POST handler satisfies: codes are unique,
      every code has the short-code format, and every target passed the URL
      check. */
  ghost predicate Admissible(store: Store, isValidUrl: string -> bool) {
    && UniqueCodes(store)
    && forall i :: 0 <= i < |store| ==> IsValidCode(store[i].code) && isValidUrl(store[i].targetUrl)
  }

  /** Creating a link keeps the table admissible. */
  lemma PostKeepsAdmissible(req: Request, store: Store, isValidUrl: string -> bool,
                            draws: seq<Draw>, now: int, setting: Option<string>)
    requires |draws| >= DrawBudget
    requires Admissible(store, isValidUrl)
    ensures Admissible(Post(req, store, isValidUrl, draws, now, setting).store, isValidUrl)
  {
    var r := Post(req, store, isValidUrl, draws, now, setting);
    if r.response.status == 201 {
      forall i | 0 <= i < |r.store|
        ensures IsValidCode(r.store[i].code) && isValidUrl(r.store[i].targetUrl)
      {
        if i < |store| {
          assert r.store[i] == r.store[..|store|][i];
        }
      }
    }
  }

  /** Under the assumption on the URL check, every stored target is a web URL
      and is never empty. */
  lemma StoredTargetsAreWebUrls(store: Store, isValidUrl: string -> bool)
    requires UrlCheckSound(isValidUrl)
    requires Admissible(store, isValidUrl)
    ensures forall i :: 0 <= i < |store| ==>
              HasWebScheme(store[i].targetUrl) && |store[i].targetUrl| >= 5
  {
    forall i | 0 <= i < |store|
      ensures HasWebScheme(store[i].targetUrl) && |store[i].targetUrl| >= 5
    {
      WebSchemeIsNonEmpty(store[i].targetUrl);
    }
  }

  /** A visible row of the table appears in the unfiltered listing. */
  lemma VisibleRowIsListed(store: Store, i: nat, setting: Option<string>)
    requires i < |store| && Visible(store[i])
    ensures ToView(store[i], BaseUrl(setting)) in Get(store, None, setting).payload.links
  {
    var row := store[i];
    assert IsBlank(Query(None));
    assert multiset(store)[row] > 0;
    var rows := ListRows(store, Query(None));
    assert multiset(rows)[row] > 0;
    var j :| 0 <= j < |rows| && rows[j] == row;
    assert Get(store, None, setting).payload.links[j] == ToView(row, BaseUrl(setting));
  }

  /** A link just created is visible: an unfiltered listing of the new table
      contains the record the POST answered with. */
  lemma CreatedLinkIsListed(req: Request, store: Store, isValidUrl: string -> bool,
                            draws: seq<Draw>, now: int, setting: Option<string>)
    requires |draws| >= DrawBudget
    ensures var r := Post(req, store, isValidUrl, draws, now, setting);
            r.response.status == 201 ==>
              r.response.payload.LinkBody? &&
              r.response.payload.link in Get(r.store, None, setting).payload.links
  {
    var r := Post(req, store, isValidUrl, draws, now, setting);
    if r.response.status == 201 {
      VisibleRowIsListed(r.store, |store|, setting);
    }
  }

  /** Soft deletion does not free a code: when any row, deleted or not, holds
      `code`, asking for that code again is answered 409 (or 400 for a bad
      URL) and no request of any kind creates a second row with it. */
  lemma DeletedCodeIsNotReused(req: Request, store: Store, isValidUrl: string -> bool,
                               draws: seq<Draw>, now: int, setting: Option<string>, i: nat)
    requires |draws| >= DrawBudget
    requires i < |store|
    ensures var r := Post(req, store, isValidUrl, draws, now, setting);
            r.response.status == 201 ==> r.store[|store|].code != store[i].code
    ensures var r := Post(req, store, isValidUrl, draws, now, setting);
            req.Json? && req.code == Str(store[i].code) && IsValidCode(store[i].code) ==>
              r.response.status in {400, 409} && r.store == store
  {
    var r := Post(req, store, isValidUrl, draws, now, setting);
    var c := store[i].code;
    if r.response.status == 201 {
      assert !CodeTaken(store, r.store[|store|].code);
    }
    if req.Json? && req.code == Str(c) && IsValidCode(c) {
      ValidCodeIsTrimmed(c);
      assert CodeTaken(store, c);
    }
  }

  /** A valid code has no surrounding white space, so trimming keeps it. */
  lemma ValidCodeIsTrimmed(c: string)
    requires IsValidCode(c)
    ensures Trim(c) == c
  {
    TrimUnique(c, 0, |c|);
    assert c[0..|c|] == c;
  }

  /** Creating a link leaves every earlier row, and so every soft deletion,
      exactly as it was. */
  lemma PostOnlyAppends(req: Request, store: Store, isValidUrl: string -> bool,
                        draws: seq<Draw>, now: int, setting: Option<string>)
    requires |draws| >= DrawBudget
    ensures var r := Post(req, store, isValidUrl, draws, now, setting);
            |r.store| >= |store| && forall i :: 0 <= i < |store| ==> r.store[i] == store[i]
  {
    var r := Post(req, store, isValidUrl, draws, now, setting);
    if r.response.status == 201 {
      forall i | 0 <= i < |store| ensures r.store[i] == store[i] {
        assert r.store[..|store|][i] == r.store[i];
      }
    }
  }
}
