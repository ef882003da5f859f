/** `POST /api/links`: validate the body, settle the code (supplied or
    generated with bounded retries), insert one row, answer 201, or answer
    400, 409 or 500 and leave the table as it was. */
module Creation {
  import opened Options
  import opened Text
  import opened Codes
  import opened Links

  /** How many random candidates the handler tries before giving up. */
  const MaxAttempts: nat := 5

  /** Draws the retry loop consumes at most: one code per attempt. */
  const DrawBudget: nat := MaxAttempts * GeneratedLength

  const UrlRequired: string := "URL is required"
  const InvalidUrl: string := "Invalid URL"
  const InvalidCode: string := "Code must be 6\U{2013}8 letters or numbers"
  const GenerationFailed: string := "Failed to generate code"
  const CodeExists: string := "Code already exists"
  const CreateFailed: string := "Failed to create link"

  /** One property of the JSON body: absent or `null`; a string; or any other
      JSON value, carried as the text `String(value)` gives for it. */
  datatype Field = Missing | Str(text: string) | Other(text: string)

  /** The request body: a JSON value the handler can destructure, or one it
      cannot (text that is not JSON, or the JSON value `null`). A JSON value
      that is not an object destructures to two missing fields. */
  datatype Request = Unreadable | Json(url: Field, code: Field)

  /** The store operations a request performs, in order. */
  datatype StoreCall = Lookup(code: string) | Create(code: string, targetUrl: string)

  datatype PostResult = PostResult(response: Response, store: Store, calls: seq<StoreCall>)

  /** The outcome of one validation step: its value, or the response that ends the request. */
  datatype Checked<T> = Pass(value: T) | Reject(response: Response)

  function Fail(status: int, message: string): Response {
    Response(status, ErrorBody(message))
  }

  /** The `url` checks: present, a non-empty string, and, once trimmed,
      accepted by the URL check. */
  function CheckUrl(url: Field, isValidUrl: string -> bool): (r: Checked<string>)
    ensures r.Pass? <==> url.Str? && url.text != "" && isValidUrl(Trim(url.text))
    ensures r.Pass? ==> r.value == Trim(url.text)
    ensures r.Reject? ==> r.response.status == 400
  {
    if !(url.Str? && url.text != "") then Reject(Fail(400, UrlRequired))
    else
      var trimmed := Trim(url.text);
      if !isValidUrl(trimmed) then Reject(Fail(400, InvalidUrl))
      else Pass(trimmed)
  }

  /** The checks on a supplied code: its string form, trimmed, must be a valid code. */
  function CheckCode(text: string): (r: Checked<string>)
    ensures r.Pass? <==> IsValidCode(Trim(text))
    ensures r.Pass? ==> r.value == Trim(text) && |r.value| <= |text|
    ensures r.Reject? ==> r.response.status == 400
  {
    var trimmed := Trim(text);
    if !IsValidCode(trimmed) then Reject(Fail(400, InvalidCode)) else Pass(trimmed)
  }

  /** Attempt `k` uses the six draws starting at draw `6 * k`. */
  function DrawOffset(k: nat): (i: nat)
    requires k < MaxAttempts
    ensures i + GeneratedLength <= DrawBudget
  {
    GeneratedLength * k
  }

  /** The five codes the loop would generate, in order: `generateCode(6)`
      applied to successive groups of six draws. */
  function Candidates(draws: seq<Draw>): (cs: seq<string>)
    requires |draws| >= DrawBudget
    ensures |cs| == MaxAttempts
    ensures forall k :: 0 <= k < MaxAttempts ==> |cs[k]| == GeneratedLength
    ensures forall k, i :: 0 <= k < MaxAttempts && 0 <= i < GeneratedLength ==>
              cs[k][i] == Alphabet[draws[DrawOffset(k) + i]]
    ensures forall k :: 0 <= k < MaxAttempts ==> IsValidCode(cs[k])
  {
    var cs := seq(MaxAttempts, k requires 0 <= k < MaxAttempts =>
                    GenerateCode(GeneratedLength, draws[DrawOffset(k)..]));
    assert forall k :: 0 <= k < MaxAttempts ==> IsValidCode(cs[k]) by {
      forall k | 0 <= k < MaxAttempts ensures IsValidCode(cs[k]) {
        GeneratedCodeIsValid(draws[DrawOffset(k)..]);
      }
    }
    cs
  }

  /** Every one of the candidates is already in use. */
  predicate AllTaken(store: Store, candidates: seq<string>) {
    forall k :: 0 <= k < |candidates| ==> CodeTaken(store, candidates[k])
  }

  /** The result of the retry loop: the code it settled on, if any, and the
      candidates it looked up, in order. */
  datatype Allocation = Allocation(code: Option<string>, lookups: seq<string>)

  /** The retry loop from attempt `attempts` on: take the next candidate, look
      it up, keep it if no row has it, otherwise try again while fewer than
      five attempts have been made. */
  function Allocate(store: Store, candidates: seq<string>, attempts: nat): (a: Allocation)
    requires attempts <= MaxAttempts == |candidates|
    ensures |a.lookups| <= MaxAttempts - attempts
    ensures forall k :: 0 <= k < |a.lookups| ==> a.lookups[k] == candidates[attempts + k]
    ensures forall k :: 0 <= k < |a.lookups| - 1 ==> CodeTaken(store, a.lookups[k])
    ensures a.code.Some? ==>
              && a.lookups != []
              && a.code.value == a.lookups[|a.lookups| - 1]
              && !CodeTaken(store, a.code.value)
    ensures a.code.None? ==>
              && |a.lookups| == MaxAttempts - attempts
              && forall k :: 0 <= k < |a.lookups| ==> CodeTaken(store, a.lookups[k])
    decreases MaxAttempts - attempts
  {
    if attempts == MaxAttempts then Allocation(None, [])
    else
      var candidate := candidates[attempts];
      if !CodeTaken(store, candidate) then Allocation(Some(candidate), [candidate])
      else
        var rest := Allocate(store, candidates, attempts + 1);
        var a := Allocation(rest.code, [candidate] + rest.lookups);
        assert forall k :: 1 <= k < |a.lookups| ==> a.lookups[k] == rest.lookups[k - 1];
        a
  }

  /** The loop finds no free code exactly when all five candidates are taken. */
  lemma AllocationFailsIffAllTaken(store: Store, candidates: seq<string>)
    requires |candidates| == MaxAttempts
    ensures Allocate(store, candidates, 0).code.None? <==> AllTaken(store, candidates)
  {
    var a := Allocate(store, candidates, 0);
    if a.code.None? {
      forall k | 0 <= k < MaxAttempts ensures CodeTaken(store, candidates[k]) {
        assert a.lookups[k] == candidates[k];
      }
    } else {
      var k := |a.lookups| - 1;
      assert a.lookups[k] == candidates[k];
    }
  }

  /** The row `create` inserts: no clicks yet, never clicked, not deleted,
      created at the store's clock reading `now`. */
  function NewLink(code: string, url: string, now: int): Link {
    Link(code, url, 0, None, now, None)
  }

  /** `prisma.link.create`, with the duplicate-code error turned into 409. */
  function Insert(store: Store, code: string, url: string, now: int, baseUrl: string): (r: (Response, Store))
    ensures CodeTaken(store, code) ==> r.0 == Fail(409, CodeExists) && r.1 == store
    ensures !CodeTaken(store, code) ==>
              && r.0.status == 201
              && |r.1| == |store| + 1 && r.1[..|store|] == store
              && r.1[|store|].code == code && r.1[|store|].targetUrl == url
              && r.1[|store|].deletedAt.None?
              && r.0.payload == LinkBody(ToView(r.1[|store|], baseUrl))
    ensures UniqueCodes(store) ==> UniqueCodes(r.1)
  {
    if CodeTaken(store, code) then (Fail(409, CodeExists), store)
    else
      var row := NewLink(code, url, now);
      (Response(201, LinkBody(ToView(row, baseUrl))), store + [row])
  }

  /** The codes a trace looks up, in order. */
  function Lookups(calls: seq<StoreCall>): seq<string> {
    if calls == [] then []
    else (if calls[0].Lookup? then [calls[0].code] else []) + Lookups(calls[1..])
  }

  /** The inserts a trace attempts, in order. */
  function Creates(calls: seq<StoreCall>): seq<StoreCall> {
    if calls == [] then []
    else (if calls[0].Create? then [calls[0]] else []) + Creates(calls[1..])
  }

  /** The trace of a sequence of candidate lookups. */
  function LookupCalls(codes: seq<string>): (calls: seq<StoreCall>)
    ensures |calls| == |codes|
    ensures Lookups(calls) == codes && Creates(calls) == []
  {
    if codes == [] then []
    else
      assert ([Lookup(codes[0])] + LookupCalls(codes[1..]))[1..] == LookupCalls(codes[1..]);
      [Lookup(codes[0])] + LookupCalls(codes[1..])
  }

  /** Lookups and inserts of a trace distribute over concatenation. */
  lemma TraceSplit(a: seq<StoreCall>, b: seq<StoreCall>)
    ensures Lookups(a + b) == Lookups(a) + Lookups(b)
    ensures Creates(a + b) == Creates(a) + Creates(b)
  {
    LookupsSplit(a, b);
    CreatesSplit(a, b);
  }

  lemma {:induction false} LookupsSplit(a: seq<StoreCall>, b: seq<StoreCall>)
    ensures Lookups(a + b) == Lookups(a) + Lookups(b)
  {
    if a == [] {
      assert a + b == b;
    } else {
      assert (a + b)[0] == a[0];
      assert (a + b)[1..] == a[1..] + b;
      LookupsSplit(a[1..], b);
    }
  }

  lemma {:induction false} CreatesSplit(a: seq<StoreCall>, b: seq<StoreCall>)
    ensures Creates(a + b) == Creates(a) + Creates(b)
  {
    if a == [] {
      assert a + b == b;
    } else {
      assert (a + b)[0] == a[0];
      assert (a + b)[1..] == a[1..] + b;
      CreatesSplit(a[1..], b);
    }
  }

  /** The shape every outcome of the handler has: one of four statuses; the
      table unchanged unless the answer is 201, and on 201 exactly one
      visible row appended, with a valid code no row had before and with
      `url` as its target, whose record is the answer; unique codes kept
      unique; at most five lookups; and an insert attempted, once, exactly
      when the answer is 201 or 409. */
  predicate Settled(store: Store, url: string, baseUrl: string, r: PostResult) {
    && r.response.status in {201, 400, 409, 500}
    && (r.response.status != 201 ==> r.store == store)
    && (r.response.status == 201 ==>
          && |r.store| == |store| + 1 && r.store[..|store|] == store
          && var row := r.store[|store|];
             && row.targetUrl == url
             && IsValidCode(row.code)
             && !CodeTaken(store, row.code)
             && row.deletedAt.None?
             && r.response.payload == LinkBody(ToView(row, baseUrl)))
    && (UniqueCodes(store) ==> UniqueCodes(r.store))
    && |Lookups(r.calls)| <= MaxAttempts
    && |Creates(r.calls)| <= 1
    && (Creates(r.calls) != [] <==> r.response.status in {201, 409})
  }

  /** Inserting a valid code after the given lookups. */
  function Commit(store: Store, code: string, url: string, now: int, baseUrl: string,
                  lookups: seq<string>): (r: PostResult)
    requires IsValidCode(code) && |lookups| <= MaxAttempts
    ensures Settled(store, url, baseUrl, r)
    ensures r.response.status in {201, 409}
    ensures r.response.status == 409 <==> CodeTaken(store, code)
    ensures r.response.status == 201 ==> r.store[|store|].code == code
    ensures Lookups(r.calls) == lookups && Creates(r.calls) == [Create(code, url)]
    ensures |r.calls| > 0 && r.calls[|r.calls| - 1] == Create(code, url)
  {
    var (response, store') := Insert(store, code, url, now, baseUrl);
    var calls := LookupCalls(lookups) + [Create(code, url)];
    TraceSplit(LookupCalls(lookups), [Create(code, url)]);
    assert Creates([Create(code, url)]) == [Create(code, url)];
    PostResult(response, store', calls)
  }

  /** The branch with a supplied code (lines 80-87): trim its string form,
      check it, and insert it without any lookup. */
  function WithSuppliedCode(store: Store, url: string, text: string, now: int, baseUrl: string): (r: PostResult)
    ensures Settled(store, url, baseUrl, r)
    ensures !IsValidCode(Trim(text)) ==> r == PostResult(Fail(400, InvalidCode), store, [])
    ensures IsValidCode(Trim(text)) ==>
              && r.calls == [Create(Trim(text), url)]
              && (r.response.status == 409 <==> CodeTaken(store, Trim(text)))
              && (r.response.status == 201 ==> r.store[|store|].code == Trim(text))
  {
    match CheckCode(text)
    case Reject(response) => PostResult(response, store, [])
    case Pass(code) =>
      var r := Commit(store, code, url, now, baseUrl, []);
      assert LookupCalls([]) == [];
      r
  }

  /** The lookups are the candidates in the order generated, every one before
      the last was taken, and on 201 the stored code is the last one looked
      up: the loop stores the first free candidate. */
  predicate FirstFree(store: Store, draws: seq<Draw>, r: PostResult)
    requires |draws| >= DrawBudget
  {
    var lookups := Lookups(r.calls);
    && (forall k :: 0 <= k < |lookups| ==> k < MaxAttempts && lookups[k] == Candidates(draws)[k])
    && (forall k :: 0 <= k < |lookups| - 1 ==> CodeTaken(store, lookups[k]))
    && (r.response.status == 201 ==>
          |lookups| > 0 && |r.store| > |store| && lookups[|lookups| - 1] == r.store[|store|].code)
  }

  /** The branch without a code (lines 89-103): run the retry loop, answer
      500 if it gives up, otherwise insert the code it found. */
  function WithGeneratedCode(store: Store, url: string, draws: seq<Draw>, now: int, baseUrl: string): (r: PostResult)
    requires |draws| >= DrawBudget
    ensures Settled(store, url, baseUrl, r)
    ensures r.response.status in {201, 500}
    ensures r.response.status == 500 <==> AllTaken(store, Candidates(draws))
    ensures r.response.status == 500 ==>
              r.response == Fail(500, GenerationFailed) && |Lookups(r.calls)| == MaxAttempts
    ensures r.response.status == 201 ==>
              && |Lookups(r.calls)| > 0
              && Lookups(r.calls)[|Lookups(r.calls)| - 1] == r.store[|store|].code
    ensures FirstFree(store, draws, r)
  {
    var candidates := Candidates(draws);
    var allocation := Allocate(store, candidates, 0);
    AllocationFailsIffAllTaken(store, candidates);
    match allocation.code
    case None => PostResult(Fail(500, GenerationFailed), store, LookupCalls(allocation.lookups))
    case Some(code) =>
      assert code == candidates[|allocation.lookups| - 1];
      Commit(store, code, url, now, baseUrl, allocation.lookups)
  }

  /** The request was well formed up to and including the URL check. */
  predicate UrlAccepted(req: Request, isValidUrl: string -> bool) {
    req.Json? && CheckUrl(req.url, isValidUrl).Pass?
  }

  /** The trimmed `url` of the request, when it has one. */
  function SubmittedUrl(req: Request): string {
    if req.Json? && req.url.Str? then Trim(req.url.text) else ""
  }

  /** The POST handler. `isValidUrl` is the URL check, `draws` the values of
      `Math.random` the generator would see (as alphabet indices), `now` the
      store's clock and `baseUrlSetting` the base-URL environment variable. */
  function Post(req: Request, store: Store, isValidUrl: string -> bool, draws: seq<Draw>,
                now: int, baseUrlSetting: Option<string>): (r: PostResult)
    requires |draws| >= DrawBudget
    // Only 201 changes the table, by appending one visible row with a fresh,
    // valid code and the trimmed URL, which the URL check accepted.
    ensures Settled(store, SubmittedUrl(req), BaseUrl(baseUrlSetting), r)
    ensures r.response.status == 201 ==> UrlAccepted(req, isValidUrl) && isValidUrl(SubmittedUrl(req))
    // A body that cannot be read ends in 500 without touching the store.
    ensures req.Unreadable? ==> r == PostResult(Fail(500, CreateFailed), store, [])
    // A missing, empty or non-string url, or one the URL check rejects once
    // trimmed, ends in 400 before the code is looked at.
    ensures req.Json? && !(req.url.Str? && req.url.text != "") ==>
              r == PostResult(Fail(400, UrlRequired), store, [])
    ensures req.Json? && req.url.Str? && req.url.text != "" && !isValidUrl(Trim(req.url.text)) ==>
              r == PostResult(Fail(400, InvalidUrl), store, [])
    // A supplied code is trimmed and checked; an invalid one ends in 400 with no
    // store call; a valid one is inserted directly, and 409 means it was taken.
    ensures UrlAccepted(req, isValidUrl) && !req.code.Missing? && !IsValidCode(Trim(req.code.text)) ==>
              r == PostResult(Fail(400, InvalidCode), store, [])
    ensures UrlAccepted(req, isValidUrl) && !req.code.Missing? && IsValidCode(Trim(req.code.text)) ==>
              && r.calls == [Create(Trim(req.code.text), Trim(req.url.text))]
              && (r.response.status == 409 <==> CodeTaken(store, Trim(req.code.text)))
              && (r.response.status == 201 ==> r.store[|store|].code == Trim(req.code.text))
    // Without a code the loop never yields a duplicate; it fails with 500 exactly
    // when all five candidates are taken, having looked up all five.
    ensures UrlAccepted(req, isValidUrl) && req.code.Missing? ==>
              && r.response.status in {201, 500}
              && (r.response.status == 500 <==> AllTaken(store, Candidates(draws)))
              && (r.response.status == 500 ==> r.response == Fail(500, GenerationFailed)
                                                && |Lookups(r.calls)| == MaxAttempts)
    // ... and on 201 it stores the first candidate that was free, looked up last.
    ensures UrlAccepted(req, isValidUrl) && req.code.Missing? ==> FirstFree(store, draws, r)
  {
    match req
    case Unreadable => PostResult(Fail(500, CreateFailed), store, [])
    case Json(urlField, codeField) =>
      match CheckUrl(urlField, isValidUrl)
      case Reject(response) => PostResult(response, store, [])
      case Pass(url) =>
        if !codeField.Missing? then
          WithSuppliedCode(store, url, codeField.text, now, BaseUrl(baseUrlSetting))
        else
          WithGeneratedCode(store, url, draws, now, BaseUrl(baseUrlSetting))
  }
}
