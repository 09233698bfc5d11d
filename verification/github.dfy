/** The GitHub REST client: request headers, the `throw` helper, link-header
    pagination, and the resource operations built on it. The HTTP scheduler,
    `JSON.parse`, `encodeURIComponent`, the query-string escaper and base64
    are not modelled; a `Client` carries them as functions. */
module GithubClient {
  import opened Base
  import opened Json
  import JsText

  type Headers = map<string, string>

  /** What `new Github(options)` reads from its options. */
  datatype ClientOptions = ClientOptions(githubKey: Option<string>, githubToken: Option<string>)

  /** A string option that JavaScript treats as true: present and non-empty. */
  predicate Filled(v: Option<string>) {
    v.Some? && v.value != ""
  }

  /** The headers sent with every request. A key is preferred over a token;
      either one becomes a `Basic` authorization header. */
  function RequestHeaders(o: ClientOptions, base64: string -> string): (h: Headers)
    ensures h.Keys == if Filled(o.githubKey) || Filled(o.githubToken)
                      then {"user-agent", "authorization"} else {"user-agent"}
    ensures h["user-agent"] == "Pown"
    ensures Filled(o.githubKey) ==> h["authorization"] == "Basic " + base64(o.githubKey.value)
    ensures !Filled(o.githubKey) && Filled(o.githubToken) ==>
              h["authorization"] == "Basic " + base64(o.githubToken.value)
  {
    var h := map["user-agent" := "Pown"];
    if Filled(o.githubKey) || Filled(o.githubToken) then
      var secret := if Filled(o.githubKey) then o.githubKey.value else o.githubToken.value;
      h["authorization" := "Basic " + base64(secret)]
    else h
  }

  /** The outcome of one request through the scheduler. */
  datatype Exchange =
    | Response(code: int, headers: Headers, body: string)
    | TransportFailure(reason: string)

  /** A configured client together with the foreign functions it calls. */
  datatype Client = Client(
    headers: Headers,
    send: (string, Headers) -> Exchange,   // the scheduler's fetch
    parse: string -> Option<Json>,         // JSON.parse; None when it throws
    encodeComponent: string -> string,     // encodeURIComponent
    encodeQuery: string -> string)         // querystring's escaping of a value

  /** `new Github(options)`, with the foreign functions the client calls:
      every request it makes carries the headers its options determine. */
  function NewGithub(o: ClientOptions, base64: string -> string, send: (string, Headers) -> Exchange,
                     parse: string -> Option<Json>, encodeComponent: string -> string,
                     encodeQuery: string -> string): (c: Client)
    ensures c.headers == RequestHeaders(o, base64)
    ensures forall uri :: Fetch(c, uri) == send(uri, RequestHeaders(o, base64))
    ensures c.parse == parse && c.encodeComponent == encodeComponent && c.encodeQuery == encodeQuery
  {
    Client(RequestHeaders(o, base64), send, parse, encodeComponent, encodeQuery)
  }

  /** Why an operation threw. */
  datatype Failure =
    | Transport(reason: string)   // the scheduler rejected
    | SyntaxError                 // JSON.parse or new RegExp threw
    | Thrown(message: string)     // an Error built from an API error message
    | TypeError                   // a null destructured, a value not iterable
    | OutOfFuel                   // the bound on followed pages was reached

  function Fetch(c: Client, uri: string): Exchange {
    c.send(uri, c.headers)
  }

  /** The error `throw` raises for one reported API error: its message,
      converted to a string. Destructuring `null` throws a TypeError. */
  function ErrorOf(e: Json): (f: Failure)
    ensures e.Null? <==> f == TypeError
    ensures !e.Null? ==> f == Thrown(Text(Get(e, "message")))
  {
    if e.Null? then TypeError else Thrown(Text(Get(e, "message")))
  }

  /** `this.throw(errors)`: iterating `errors`, the first element raises, so
      an empty collection raises nothing; a value that is not iterable raises
      a TypeError. A string iterates over one-character strings, which carry
      no message. */
  function Throw(errors: Json): (r: Option<Failure>)
    ensures errors.Arr? ==> (r.None? <==> errors.elems == [])
    ensures errors.Arr? && errors.elems != [] ==> r == Some(ErrorOf(errors.elems[0]))
    ensures errors.Str? ==> (r.None? <==> errors.s == "")
    ensures !errors.Arr? && !errors.Str? ==> r == Some(TypeError)
  {
    match errors
    case Arr(es) => if |es| == 0 then None else Some(ErrorOf(es[0]))
    case Str(s) => if s == "" then None else Some(ErrorOf(Str([s[0]])))
    case _ => Some(TypeError)
  }

  const RelNext := "rel=\"next\""

  /** Whether `<([^>]+?)>;\s*rel="next"` matches at index `i` of `s`, and the
      captured text. `[^>]` cannot pass a `>`, so the lazy group must end
      at the first `>` after the `<`, and it must be non-empty. */
  function LinkAt(s: string, i: nat): (r: Option<string>)
    requires i <= |s|
    ensures r.Some? ==> r.value != [] && '>' !in r.value
    ensures r.Some? ==> i + |r.value| + 2 <= |s| && s[i] == '<'
                        && s[i + 1..i + 1 + |r.value|] == r.value
                        && s[i + 1 + |r.value|] == '>'
  {
    if i == |s| || s[i] != '<' then None
    else
      var k := JsText.IndexFrom(s, '>', i + 1);
      if k == |s| || k == i + 1 || k + 1 == |s| || s[k + 1] != ';' then None
      else
        var m := JsText.TextFrom(s, k + 2);
        if m + |RelNext| <= |s| && s[m..m + |RelNext|] == RelNext then
          Some(s[i + 1..k])
        else None
  }

  /** The leftmost index at or after `i` where the link pattern matches. */
  function FirstLink(s: string, i: nat): (r: Option<nat>)
    requires i <= |s|
    ensures r.Some? ==> i <= r.value <= |s|
  {
    FirstWhere(LinkStarts(s), i, |s|)
  }

  /** The indices of `s` where the link pattern matches. */
  function LinkStarts(s: string): nat -> bool {
    (j: nat) => j <= |s| && LinkAt(s, j).Some?
  }

  /** The least index in `i..n` satisfying `p`, if any. */
  function FirstWhere(p: nat -> bool, i: nat, n: nat): (r: Option<nat>)
    requires i <= n
    ensures r.Some? ==> i <= r.value <= n
    decreases n - i
  {
    if p(i) then Some(i)
    else if i == n then None
    else FirstWhere(p, i + 1, n)
  }

  lemma {:induction false} FirstWhereLeast(p: nat -> bool, i: nat, n: nat)
    requires i <= n
    ensures FirstWhere(p, i, n).Some? ==> p(FirstWhere(p, i, n).value)
    ensures FirstWhere(p, i, n).Some? ==> forall j :: i <= j < FirstWhere(p, i, n).value ==> !p(j)
    ensures FirstWhere(p, i, n).None? ==> forall j :: i <= j <= n ==> !p(j)
    decreases n - i
  {
    if !p(i) && i < n {
      FirstWhereLeast(p, i + 1, n);
    }
  }

  lemma FirstLinkLeftmost(s: string, i: nat)
    requires i <= |s|
    ensures FirstLink(s, i).Some? ==> LinkAt(s, FirstLink(s, i).value).Some?
    ensures FirstLink(s, i).Some? ==> forall j :: i <= j < FirstLink(s, i).value ==> LinkAt(s, j).None?
    ensures FirstLink(s, i).None? ==> forall j :: i <= j <= |s| ==> LinkAt(s, j).None?
  {
    var p := LinkStarts(s);
    var r := FirstLink(s, i);
    FirstWhereLeast(p, i, |s|);
    assert r == FirstWhere(p, i, |s|);
    if r.Some? {
      assert p(r.value);
      forall j | i <= j < r.value ensures LinkAt(s, j).None? {
        assert !p(j);
      }
    } else {
      forall j | i <= j <= |s| ensures LinkAt(s, j).None? {
        assert !p(j);
      }
    }
  }

  /** The next page's URI: the group of the leftmost match in a non-empty
      `link` header; absent when there is no header or no match. */
  function NextLink(hs: Headers): (r: Option<string>)
    ensures r.Some? ==> "link" in hs && r.value != []
    ensures ("link" !in hs || hs["link"] == "") ==> r.None?
  {
    if "link" in hs && hs["link"] != "" then
      var s := hs["link"];
      match FirstLink(s, 0)
      case Some(i) => LinkAt(s, i)
      case None => None
    else None
  }

  /** What one iteration of the pagination loop does with a response. */
  datatype Step = Yield(page: Json, next: Option<string>) | Stop(failure: Failure)

  /** `if (errors) this.throw(errors)`: what a page's `errors` field raises. */
  function Raises(errors: Option<Json>): (r: Option<Failure>)
    ensures !Truthy(errors) ==> r.None?
    ensures Truthy(errors) ==> r == Throw(errors.value)
  {
    if Truthy(errors) then Throw(errors.value) else None
  }

  /** One iteration of the loop body: a page is yielded exactly when the
      response parsed to a non-null value whose `errors` raise nothing and
      whose status is 200; every other response stops the loop with the
      failure the code throws. */
  function PageStep(c: Client, x: Exchange): (r: Step)
    ensures r.Yield? ==> x.Response? && x.code == 200 && c.parse(x.body) == Some(r.page)
    ensures r.Yield? ==> r.next == NextLink(x.headers)
    ensures r.Yield? ==> !Truthy(Get(r.page, "errors")) || Get(r.page, "errors") == Some(Arr([]))
    ensures x.TransportFailure? ==> r == Stop(Transport(x.reason))
    ensures x.Response? && c.parse(x.body).None? ==> r == Stop(SyntaxError)
    ensures x.Response? && c.parse(x.body) == Some(Null) ==> r == Stop(TypeError)
    ensures x.Response? && c.parse(x.body).Some? && !c.parse(x.body).value.Null? ==>
              var p := c.parse(x.body).value;
              && (Raises(Get(p, "errors")).Some? ==> r == Stop(Raises(Get(p, "errors")).value))
              && (Raises(Get(p, "errors")).None? && x.code != 200 ==> r == Stop(ErrorOf(p)))
              && (Raises(Get(p, "errors")).None? && x.code == 200 ==> r == Yield(p, NextLink(x.headers)))
  {
    match x
    case TransportFailure(reason) => Stop(Transport(reason))
    case Response(code, headers, body) =>
      match c.parse(body)
      case None => Stop(SyntaxError)
      case Some(result) =>
        if result.Null? then Stop(TypeError)
        else
          var raised := Raises(Get(result, "errors"));
          if raised.Some? then Stop(raised.value)
          else if code != 200 then Stop(ErrorOf(result))
          else Yield(result, NextLink(headers))
  }

  /** How a lazily consumed sequence ended. */
  datatype End = Completed | Failed(failure: Failure)

  /** The items a lazy sequence produced, and how it ended. */
  datatype Run<T> = Run(items: seq<T>, end: End)

  /** What one request of the pagination loop does with the URI it is
      given. */
  function Requests(c: Client): string -> Step {
    u => PageStep(c, Fetch(c, u))
  }

  /** The pagination loop, given what each request does: yield the page,
      follow the next link until a page has none. At most `fuel` requests
      are made. */
  function Pages(step: string -> Step, uri: string, fuel: nat): (r: Run<Json>)
    ensures |r.items| <= fuel
    decreases fuel
  {
    if fuel == 0 then Run([], Failed(OutOfFuel))
    else
      match step(uri)
      case Stop(f) => Run([], Failed(f))
      case Yield(page, None) => Run([page], Completed)
      case Yield(page, Some(next)) =>
        var rest := Pages(step, next, fuel - 1);
        Run([page] + rest.items, rest.end)
  }

  /** `paginate(uri)` */
  function Paginate(c: Client, uri: string, fuel: nat): Run<Json> {
    Pages(Requests(c), uri, fuel)
  }

  /** The URI of the `k`-th request of a pagination started at `uri`, if the
      first `k` pages all yielded and pointed onwards. */
  function RequestUri(step: string -> Step, uri: string, k: nat): Option<string>
    decreases k
  {
    if k == 0 then Some(uri)
    else
      match step(uri)
      case Yield(_, Some(next)) => RequestUri(step, next, k - 1)
      case _ => None
  }

  /** What the `k`-th request of that pagination does. */
  function StepAt(step: string -> Step, uri: string, k: nat): Option<Step> {
    match RequestUri(step, uri, k)
    case Some(u) => Some(step(u))
    case None => None
  }

  /** A request never fails for want of fuel: that failure is reserved for
      the bound on the loop. */
  ghost predicate NeverOutOfFuel(step: string -> Step) {
    forall u :: step(u) != Stop(OutOfFuel)
  }

  lemma RequestsNeverOutOfFuel(c: Client)
    ensures NeverOutOfFuel(Requests(c))
  {
    forall u ensures Requests(c)(u) != Stop(OutOfFuel) {
      var x := Fetch(c, u);
      if x.Response? && c.parse(x.body).Some? {
        var result := c.parse(x.body).value;
        var errors := Get(result, "errors");
        if !result.Null? && Truthy(errors) && Throw(errors.value).Some? {
          assert Throw(errors.value).value != OutOfFuel;
        }
      }
    }
  }

  /** After a page that points onwards, the requests continue from the
      next link. */
  lemma StepAtShift(step: string -> Step, uri: string, next: string, k: nat)
    requires step(uri).Yield? && step(uri).next == Some(next)
    ensures RequestUri(step, uri, k + 1) == RequestUri(step, next, k)
    ensures StepAt(step, uri, k + 1) == StepAt(step, next, k)
  {
  }

  /** Pagination yields the page of each request in turn, and every page but
      the last points onwards. */
  lemma {:induction false} PaginateYields(step: string -> Step, uri: string, fuel: nat)
    ensures var r := Pages(step, uri, fuel);
      forall k :: 0 <= k < |r.items| ==>
        && StepAt(step, uri, k).Some? && StepAt(step, uri, k).value.Yield?
        && StepAt(step, uri, k).value.page == r.items[k]
        && (k < |r.items| - 1 ==> StepAt(step, uri, k).value.next.Some?)
    decreases fuel
  {
    if fuel > 0 {
      match step(uri)
      case Stop(f) =>
      case Yield(page, None) =>
      case Yield(page, Some(next)) =>
        PaginateYields(step, next, fuel - 1);
        var r := Pages(step, uri, fuel);
        forall k | 0 < k < |r.items| ensures StepAt(step, uri, k) == StepAt(step, next, k - 1) {
          StepAtShift(step, uri, next, k - 1);
        }
    }
  }

  /** Pagination completes exactly at the first page without a next link,
      stops with the failure of the request that failed, and runs out of
      fuel only after `fuel` pages that all pointed onwards. */
  lemma {:induction false} PaginateEnds(step: string -> Step, uri: string, fuel: nat)
    requires NeverOutOfFuel(step)
    ensures var r := Pages(step, uri, fuel);
      && (r.end == Completed ==>
            && |r.items| > 0 && StepAt(step, uri, |r.items| - 1).Some?
            && StepAt(step, uri, |r.items| - 1).value.Yield?
            && StepAt(step, uri, |r.items| - 1).value.next.None?)
      && (r.end.Failed? && r.end.failure != OutOfFuel ==>
            StepAt(step, uri, |r.items|) == Some(Stop(r.end.failure)))
      && (r.end == Failed(OutOfFuel) ==> |r.items| == fuel && RequestUri(step, uri, fuel).Some?)
    decreases fuel
  {
    if fuel > 0 {
      match step(uri)
      case Stop(f) =>
      case Yield(page, None) =>
      case Yield(page, Some(next)) =>
        PaginateEnds(step, next, fuel - 1);
        var r := Pages(step, next, fuel - 1);
        StepAtShift(step, uri, next, |r.items|);
        if |r.items| > 0 {
          StepAtShift(step, uri, next, |r.items| - 1);
        }
        StepAtShift(step, uri, next, fuel - 1);
    }
  }

  /** A response whose `errors` list is non-empty stops pagination with the
      first error's message, whatever the status code. */
  lemma ErrorsStopPagination(c: Client, uri: string, fuel: nat, code: int, hs: Headers, body: string,
                             fields: map<string, Json>, first: Json, more: seq<Json>)
    requires fuel > 0
    requires Fetch(c, uri) == Response(code, hs, body)
    requires c.parse(body) == Some(Obj(fields))
    requires "errors" in fields && fields["errors"] == Arr([first] + more)
    ensures Paginate(c, uri, fuel) == Run([], Failed(ErrorOf(first)))
  {
  }

  /** A status other than 200 without errors stops pagination with the
      body's own message. */
  lemma StatusStopsPagination(c: Client, uri: string, fuel: nat, code: int, hs: Headers, body: string,
                              result: Json)
    requires fuel > 0 && code != 200
    requires Fetch(c, uri) == Response(code, hs, body)
    requires c.parse(body) == Some(result) && !result.Null?
    requires !Truthy(Get(result, "errors"))
    ensures Paginate(c, uri, fuel) == Run([], Failed(Thrown(Text(Get(result, "message")))))
  {
  }

  /** Two linked pages: the first names the second in its `link` header, the
      second has no header; both are yielded, in order. */
  lemma TwoPages(c: Client, u1: string, u2: string, rest: string, fuel: nat,
                 b1: string, b2: string, p1: Json, p2: Json)
    requires fuel >= 2
    requires u2 != [] && '>' !in u2
    requires Fetch(c, u1) == Response(200, map["link" := "<" + u2 + ">; " + RelNext + rest], b1)
    requires Fetch(c, u2) == Response(200, map[], b2)
    requires c.parse(b1) == Some(p1) && c.parse(b2) == Some(p2)
    requires !p1.Null? && !Truthy(Get(p1, "errors")) && !p2.Null? && !Truthy(Get(p2, "errors"))
    ensures Paginate(c, u1, fuel) == Run([p1, p2], Completed)
  {
    NextEntry(u2, rest);
    assert Paginate(c, u2, fuel - 1) == Run([p2], Completed);
  }

  /** The pattern at the start of an entry `<u>; rel`: it matches exactly
      when the relation text starts with `rel="next"`, and captures `u`. */
  lemma LinkAtEntry(u: string, rel: string)
    requires u != [] && '>' !in u
    requires rel != [] && !JsText.IsSpace(rel[0])
    ensures LinkAt("<" + u + ">; " + rel, 0)
      == if |rel| >= |RelNext| && rel[..|RelNext|] == RelNext then Some(u) else None
  {
    var s := "<" + u + ">; " + rel;
    var k := |u| + 1;
    assert s[0] == '<' && s[k] == '>' && s[k + 1] == ';' && s[k + 2] == ' ';
    assert JsText.IndexFrom(s, '>', 1) == k by {
      forall j | 1 <= j < k ensures s[j] != '>' {
        assert s[j] == u[j - 1];
      }
    }
    assert JsText.TextFrom(s, k + 2) == k + 3 by {
      assert s[k + 3] == rel[0];
    }
    assert s[k + 3..] == rel;
    assert s[1..k] == u;
    if |rel| >= |RelNext| {
      assert s[k + 3..k + 3 + |RelNext|] == rel[..|RelNext|];
    }
  }

  /** Only a `<` can start a match. */
  lemma NoLinkWithoutBracket(s: string, i: nat)
    requires i <= |s|
    requires forall j :: i <= j < |s| ==> s[j] != '<'
    ensures FirstLink(s, i) == None
  {
    FirstLinkLeftmost(s, i);
  }

  /** Whether `p` occurs in `s` starting at index `i`. */
  predicate StartsAt(s: string, i: nat, p: string) {
    i + |p| <= |s| && s[i..i + |p|] == p
  }

  /** Reference reading of `<([^>]+?)>;\s*rel="next"` at index `i`: a `<`,
      the capture `u` (non-empty, no `>`), then `>;`, white space, and
      `rel="next"`. */
  ghost predicate EntryAt(s: string, i: nat, u: string) {
    && u != [] && '>' !in u
    && exists w :: JsText.AllSpace(w) && StartsAt(s, i, "<" + u + ">;" + w + RelNext)
  }

  /** The matcher at one index agrees with the reference reading, both
      ways: it captures `u` exactly when `<u>;`, white space and
      `rel="next"` start there. */
  lemma LinkAtMeaning(s: string, i: nat, u: string)
    requires i <= |s|
    ensures LinkAt(s, i) == Some(u) <==> EntryAt(s, i, u)
  {
    if LinkAt(s, i) == Some(u) {
      LinkAtSound(s, i);
    }
    if EntryAt(s, i, u) {
      var w :| JsText.AllSpace(w) && StartsAt(s, i, "<" + u + ">;" + w + RelNext);
      LinkAtComplete(s, i, u, w);
    }
  }

  lemma LinkAtSound(s: string, i: nat)
    requires i <= |s| && LinkAt(s, i).Some?
    ensures EntryAt(s, i, LinkAt(s, i).value)
  {
    var u := LinkAt(s, i).value;
    var k := i + 1 + |u|;
    var m := LinkAtParts(s, i);
    var w := s[k + 2..m];
    assert JsText.AllSpace(w) by {
      assert forall j :: 0 <= j < |w| ==> w[j] == s[k + 2 + j];
    }
    EntryOfSlices(s, i, u, w);
  }

  /** What a match at `i` is made of; returns where `rel="next"` starts. */
  lemma LinkAtParts(s: string, i: nat) returns (m: nat)
    requires i <= |s| && LinkAt(s, i).Some?
    ensures var k := i + 1 + |LinkAt(s, i).value|;
      && k + 2 <= m && m + |RelNext| <= |s|
      && s[i] == '<' && s[i + 1..k] == LinkAt(s, i).value && s[k] == '>' && s[k + 1] == ';'
      && (forall j :: k + 2 <= j < m ==> JsText.IsSpace(s[j]))
      && s[m..m + |RelNext|] == RelNext
  {
    var k := JsText.IndexFrom(s, '>', i + 1);
    m := JsText.TextFrom(s, k + 2);
  }

  /** The pieces of an entry, found one after another in `s`, form the entry. */
  lemma EntryOfSlices(s: string, i: nat, u: string, w: string)
    requires i + 1 + |u| + 2 + |w| + |RelNext| <= |s|
    requires s[i] == '<' && s[i + 1..i + 1 + |u|] == u
    requires s[i + 1 + |u|] == '>' && s[i + 2 + |u|] == ';'
    requires s[i + 3 + |u|..i + 3 + |u| + |w|] == w
    requires s[i + 3 + |u| + |w|..i + 3 + |u| + |w| + |RelNext|] == RelNext
    ensures StartsAt(s, i, "<" + u + ">;" + w + RelNext)
  {
    var k := i + 1 + |u|;
    var m := k + 2 + |w|;
    SliceJoin(s, i, i + 1, k);
    SliceJoin(s, i, k, k + 2);
    SliceJoin(s, i, k + 2, m);
    SliceJoin(s, i, m, m + |RelNext|);
    assert s[i..i + 1] == "<" && s[k..k + 2] == ">;";
  }

  lemma SliceJoin(s: string, a: nat, b: nat, c: nat)
    requires a <= b <= c <= |s|
    ensures s[a..c] == s[a..b] + s[b..c]
  {
  }

  lemma SliceSplit(s: string, a: nat, b: nat, x: string, y: string)
    requires a <= b <= |s| && s[a..b] == x + y
    ensures a + |x| <= b && s[a..a + |x|] == x && s[a + |x|..b] == y
  {
    assert s[a..a + |x|] == s[a..b][..|x|];
    assert s[a + |x|..b] == s[a..b][|x|..];
  }

  /** The slices of an entry found at `i`. */
  lemma SlicesOfEntry(s: string, i: nat, u: string, w: string)
    requires StartsAt(s, i, "<" + u + ">;" + w + RelNext)
    ensures var k := i + 1 + |u|; var m := k + 2 + |w|;
      && m + |RelNext| <= |s|
      && s[i] == '<' && s[i + 1..k] == u && s[k] == '>' && s[k + 1] == ';'
      && s[k + 2..m] == w && s[m..m + |RelNext|] == RelNext
  {
    var k := i + 1 + |u|;
    var m := k + 2 + |w|;
    SliceSplit(s, i, m + |RelNext|, "<" + u + ">;" + w, RelNext);
    SliceSplit(s, i, m, "<" + u + ">;", w);
    SliceSplit(s, i, k + 2, "<" + u, ">;");
    SliceSplit(s, i, k, "<", u);
    assert s[i] == s[i..i + 1][0] && s[k] == s[k..k + 2][0] && s[k + 1] == s[k..k + 2][1];
  }

  /** A match at `i` from its pieces: the `<`, the first `>` after it (not
      adjacent), the `;`, and `rel="next"` after the white space. */
  lemma LinkAtOfParts(s: string, i: nat, k: nat, m: nat)
    requires i + 1 < k && k + 2 <= m && m + |RelNext| <= |s|
    requires s[i] == '<' && JsText.IndexFrom(s, '>', i + 1) == k && s[k + 1] == ';'
    requires JsText.TextFrom(s, k + 2) == m && s[m..m + |RelNext|] == RelNext
    ensures LinkAt(s, i) == Some(s[i + 1..k])
  {
  }

  lemma LinkAtComplete(s: string, i: nat, u: string, w: string)
    requires i <= |s| && u != [] && '>' !in u && JsText.AllSpace(w)
    requires StartsAt(s, i, "<" + u + ">;" + w + RelNext)
    ensures LinkAt(s, i) == Some(u)
  {
    var k := i + 1 + |u|;
    var m := k + 2 + |w|;
    SlicesOfEntry(s, i, u, w);
    assert s[m] == s[m..m + |RelNext|][0];
    forall j | i + 1 <= j < k ensures s[j] != '>' {
      assert s[j] == s[i + 1..k][j - i - 1];
    }
    JsText.IndexFromAt(s, '>', i + 1, k);
    forall j | k + 2 <= j < m ensures JsText.IsSpace(s[j]) {
      assert s[j] == s[k + 2..m][j - k - 2];
    }
    JsText.TextFromAt(s, k + 2, m);
    LinkAtOfParts(s, i, k, m);
  }

  /** The next link is the capture at the leftmost index where the pattern
      matches. */
  lemma NextLinkLeftmost(hs: Headers, i: nat)
    requires "link" in hs && hs["link"] != "" && i <= |hs["link"]|
    requires LinkAt(hs["link"], i).Some?
    requires forall j :: 0 <= j < i ==> LinkAt(hs["link"], j).None?
    ensures NextLink(hs) == LinkAt(hs["link"], i)
  {
    FirstLinkLeftmost(hs["link"], 0);
  }

  /** There is no next link exactly when the header is missing or empty, or
      the pattern matches nowhere in it. */
  lemma NextLinkNone(hs: Headers)
    ensures NextLink(hs).None? <==>
      "link" !in hs || hs["link"] == "" || forall j :: 0 <= j <= |hs["link"]| ==> LinkAt(hs["link"], j).None?
  {
    if "link" in hs && hs["link"] != "" {
      FirstLinkLeftmost(hs["link"], 0);
    }
  }

  /** Round trip: a header whose first entry is `<u>; rel="next"` yields `u`. */
  lemma NextEntry(u: string, rest: string)
    requires u != [] && '>' !in u
    ensures NextLink(map["link" := "<" + u + ">; " + RelNext + rest]) == Some(u)
  {
    var rel := RelNext + rest;
    assert rel[..|RelNext|] == RelNext && rel[0] == 'r';
    LinkAtEntry(u, rel);
    assert "<" + u + ">; " + RelNext + rest == "<" + u + ">; " + rel;
  }

  /** A later entry is found when the earlier ones name another relation:
      with `<a>; rel, <b>; rel="next"…` the next page is `b`. */
  lemma SecondEntryNext(a: string, rel: string, b: string, rest: string)
    requires a != [] && '>' !in a && '<' !in a && b != [] && '>' !in b
    requires '<' !in rel && |rel| >= |RelNext| && rel[..|RelNext|] != RelNext && !JsText.IsSpace(rel[0])
    ensures NextLink(map["link" := "<" + a + ">; " + rel + ", <" + b + ">; " + RelNext + rest]) == Some(b)
  {
    var first := "<" + a + ">; " + rel + ", ";
    var t := "<" + b + ">;" + " " + RelNext + rest;
    assert "<" + a + ">; " + rel + ", <" + b + ">; " + RelNext + rest == first + t;
    FirstEntryOther(a, rel, t);
    NoBracketBefore(first, t);
    SecondEntryAt(first, b, rest);
    NextLinkLeftmost(map["link" := first + t], |first|);
  }

  lemma FirstEntryOther(a: string, rel: string, t: string)
    requires a != [] && '>' !in a
    requires |rel| >= |RelNext| && rel[..|RelNext|] != RelNext && !JsText.IsSpace(rel[0])
    ensures LinkAt("<" + a + ">; " + rel + ", " + t, 0).None?
  {
    var tail := rel + ", " + t;
    assert "<" + a + ">; " + rel + ", " + t == "<" + a + ">; " + tail;
    assert tail[..|RelNext|] == rel[..|RelNext|];
    LinkAtEntry(a, tail);
  }

  lemma NoBracketBefore(first: string, t: string)
    requires first != [] && '<' !in first[1..]
    ensures forall j :: 0 < j < |first| ==> LinkAt(first + t, j).None?
  {
    forall j | 0 < j < |first| ensures LinkAt(first + t, j).None? {
      assert (first + t)[j] == first[1..][j - 1];
    }
  }

  lemma SecondEntryAt(first: string, b: string, rest: string)
    requires b != [] && '>' !in b
    ensures LinkAt(first + ("<" + b + ">;" + " " + RelNext + rest), |first|) == Some(b)
  {
    var entry := "<" + b + ">;" + " " + RelNext;
    assert entry + rest == "<" + b + ">;" + " " + RelNext + rest;
    StartsAtAppend(first, entry, rest);
    assert JsText.AllSpace(" ");
    LinkAtComplete(first + (entry + rest), |first|, b, " ");
  }

  lemma StartsAtAppend(x: string, p: string, rest: string)
    ensures StartsAt(x + (p + rest), |x|, p)
  {
    assert (x + (p + rest))[|x|..|x| + |p|] == p;
  }

  /** The entries of a two-relation header: `prev` first, then `next`. */
  lemma PrevThenNext(a: string, b: string, rest: string)
    requires a != [] && '>' !in a && '<' !in a && b != [] && '>' !in b
    ensures NextLink(map["link" := "<" + a + ">; " + "rel=\"prev\"" + ", <" + b + ">; " + RelNext + rest]) == Some(b)
  {
    var rel := "rel=\"prev\"";
    assert rel[5] != RelNext[5];
    SecondEntryNext(a, rel, b, rest);
  }

  /** The relation name is matched case-sensitively: an only entry whose
      relation is anything else of the same length, `rel="NEXT"` say, gives
      no next page. */
  lemma OnlyEntryOtherRel(u: string, rel: string)
    requires u != [] && '>' !in u && '<' !in u && '<' !in rel
    requires |rel| == |RelNext| && rel != RelNext && !JsText.IsSpace(rel[0])
    ensures NextLink(map["link" := "<" + u + ">; " + rel]) == None
  {
    var s := "<" + u + ">; " + rel;
    assert rel[..|RelNext|] == rel;
    LinkAtEntry(u, rel);
    var k := |u| + 1;
    forall j | 1 <= j < |s| ensures s[j] != '<' {
      if j < k {
        assert s[j] == u[j - 1];
      } else if j >= k + 3 {
        assert s[j] == rel[j - k - 3];
      }
    }
    NoLinkWithoutBracket(s, 1);
  }

  /** `for (let item of v)`: arrays give their elements and strings their
      characters; anything else, `undefined` included, is not iterable. */
  function Iterate(v: Option<Json>): (r: Result<seq<Json>, Failure>)
    ensures r.Ok? <==> v.Some? && (v.value.Arr? || v.value.Str?)
    ensures v.Some? && v.value.Arr? ==> r == Ok(v.value.elems)
    ensures v.Some? && v.value.Str? ==>
              r.Ok? && |r.value| == |v.value.s|
              && forall i :: 0 <= i < |v.value.s| ==> r.value[i] == Str([v.value.s[i]])
    ensures r.Err? ==> r.error == TypeError
  {
    match v
    case Some(Arr(es)) => Ok(es)
    case Some(Str(s)) => Ok(seq(|s|, i requires 0 <= i < |s| => Str([s[i]])))
    case _ => Err(TypeError)
  }

  /** What the consumer of a page iterates: the page itself, or its `items`
      field (the search results). */
  datatype Selector = WholePage | ItemsField

  function Select(sel: Selector, page: Json): Option<Json> {
    match sel
    case WholePage => Some(page)
    case ItemsField => Get(page, "items")
  }

  /** The nested loop `for await (page) for (item of page)`: the items of
      each page in turn, stopping at the first page that is not iterable. */
  function Flatten(pages: seq<Json>, end: End, sel: Selector): (r: Run<Json>)
    ensures |pages| == 0 ==> r == Run([], end)
    decreases |pages|
  {
    if |pages| == 0 then Run([], end)
    else
      match Iterate(Select(sel, pages[0]))
      case Err(f) => Run([], Failed(f))
      case Ok(xs) =>
        var rest := Flatten(pages[1..], end, sel);
        Run(xs + rest.items, rest.end)
  }

  /** When every page is iterable, flattening concatenates their items and
      ends as the pages ended. */
  lemma {:induction false} FlattenConcat(pages: seq<Json>, end: End, sel: Selector, lists: seq<seq<Json>>)
    requires |lists| == |pages|
    requires forall k :: 0 <= k < |pages| ==> Iterate(Select(sel, pages[k])) == Ok(lists[k])
    ensures Flatten(pages, end, sel) == Run(Concat(lists), end)
    decreases |pages|
  {
    if |pages| > 0 {
      FlattenConcat(pages[1..], end, sel, lists[1..]);
    }
  }

  /** The first page that is not iterable ends the flattening with a
      TypeError, after the items of the pages before it. */
  lemma {:induction false} FlattenStops(pages: seq<Json>, end: End, sel: Selector, lists: seq<seq<Json>>)
    requires |lists| < |pages|
    requires forall k :: 0 <= k < |lists| ==> Iterate(Select(sel, pages[k])) == Ok(lists[k])
    requires Iterate(Select(sel, pages[|lists|])).Err?
    ensures Flatten(pages, end, sel) == Run(Concat(lists), Failed(TypeError))
    decreases |lists|
  {
    if |lists| > 0 {
      FlattenStops(pages[1..], end, sel, lists[1..]);
    }
  }

  const Api := "https://api.github.com/"

  /** Every item of every page of a paginated listing. */
  function Listing(c: Client, uri: string, fuel: nat): Run<Json> {
    var pages := Paginate(c, uri, fuel);
    Flatten(pages.items, pages.end, WholePage)
  }

  /** A listing whose pages are all arrays is their concatenation. */
  lemma ListingOfArrays(c: Client, uri: string, fuel: nat, lists: seq<seq<Json>>)
    requires |lists| == |Paginate(c, uri, fuel).items|
    requires forall k :: 0 <= k < |lists| ==> Paginate(c, uri, fuel).items[k] == Arr(lists[k])
    ensures Listing(c, uri, fuel) == Run(Concat(lists), Paginate(c, uri, fuel).end)
  {
    FlattenConcat(Paginate(c, uri, fuel).items, Paginate(c, uri, fuel).end, WholePage, lists);
  }

  function ReposUri(c: Client, username: string): string
  {
    Api + "users/" + c.encodeComponent(username) + "/repos"
  }

  function GistsUri(c: Client, username: string): string
  {
    Api + "users/" + c.encodeComponent(username) + "/gists"
  }

  function OrgsUri(c: Client, username: string): string
  {
    Api + "users/" + c.encodeComponent(username) + "/orgs"
  }

  function MembersUri(c: Client, org: string): string
  {
    Api + "orgs/" + c.encodeComponent(org) + "/members"
  }

  /** `repos`, `gists`, `orgs` and `members`. */
  function Repos(c: Client, username: string, fuel: nat): Run<Json> {
    Listing(c, ReposUri(c, username), fuel)
  }

  function Gists(c: Client, username: string, fuel: nat): Run<Json> {
    Listing(c, GistsUri(c, username), fuel)
  }

  function Orgs(c: Client, username: string, fuel: nat): Run<Json> {
    Listing(c, OrgsUri(c, username), fuel)
  }

  function Members(c: Client, org: string, fuel: nat): Run<Json> {
    Listing(c, MembersUri(c, org), fuel)
  }

  /** The `categories` argument of `search`: omitted, one value, or an array. */
  datatype Categories = DefaultCategories | OneCategory(name: string) | CategoryList(names: seq<string>)

  function CategoryNames(cats: Categories): seq<string>
  {
    match cats
    case DefaultCategories => ["code"]
    case OneCategory(n) => [n]
    case CategoryList(ns) => ns
  }

  function SearchUri(c: Client, category: string, q: string): string {
    Api + "search/" + category + "?q=" + c.encodeQuery(q)
  }

  /** The `items` of every page of one category's search. */
  function CategoryRun(c: Client, q: string, category: string, fuel: nat): Run<Json> {
    var pages := Paginate(c, SearchUri(c, category, q), fuel);
    Flatten(pages.items, pages.end, ItemsField)
  }

  /** Runs chained one after another, one per name: the first failing
      run ends the chain with its failure. */
  function Chain(names: seq<string>, run: string -> Run<Json>): (r: Run<Json>)
    ensures |names| == 0 ==> r == Run([], Completed)
    decreases |names|
  {
    if |names| == 0 then Run([], Completed)
    else
      var first := run(names[0]);
      if first.end.Failed? then first
      else
        var rest := Chain(names[1..], run);
        Run(first.items + rest.items, rest.end)
  }

  /** The categories searched one after another; a failure ends the search. */
  function SearchAll(c: Client, q: string, names: seq<string>, fuel: nat): Run<Json> {
    Chain(names, name => CategoryRun(c, q, name, fuel))
  }

  /** `search(q, categories)` */
  function Search(c: Client, q: string, cats: Categories, fuel: nat): Run<Json> {
    SearchAll(c, q, CategoryNames(cats), fuel)
  }

  /** A single category, or none at all (`code`), searches exactly that
      category. */
  lemma SearchSingleCategory(c: Client, q: string, name: string, fuel: nat)
    ensures Search(c, q, OneCategory(name), fuel) == CategoryRun(c, q, name, fuel)
    ensures Search(c, q, DefaultCategories, fuel) == CategoryRun(c, q, "code", fuel)
  {
    var first := CategoryRun(c, q, name, fuel);
    assert first.items + [] == first.items;
    var code := CategoryRun(c, q, "code", fuel);
    assert code.items + [] == code.items;
  }

  /** When every run completes, the chain yields their items in order. */
  lemma {:induction false} ChainConcat(names: seq<string>, run: string -> Run<Json>, lists: seq<seq<Json>>)
    requires |lists| == |names|
    requires forall k :: 0 <= k < |names| ==> run(names[k]) == Run(lists[k], Completed)
    ensures Chain(names, run) == Run(Concat(lists), Completed)
    decreases |names|
  {
    if |names| > 0 {
      ChainConcat(names[1..], run, lists[1..]);
    }
  }

  /** The first failing run ends the chain: the items before it, then its
      own items and failure; later runs are never consulted. */
  lemma {:induction false} ChainStops(names: seq<string>, run: string -> Run<Json>, lists: seq<seq<Json>>)
    requires |lists| < |names|
    requires forall k :: 0 <= k < |lists| ==> run(names[k]) == Run(lists[k], Completed)
    requires run(names[|lists|]).end.Failed?
    ensures var failed := run(names[|lists|]);
            Chain(names, run) == Run(Concat(lists) + failed.items, failed.end)
    decreases |lists|
  {
    var failed := run(names[|lists|]);
    if |lists| > 0 {
      ChainStops(names[1..], run, lists[1..]);
      assert Concat(lists) == lists[0] + Concat(lists[1..]);
      assert lists[0] + (Concat(lists[1..]) + failed.items) == Concat(lists) + failed.items;
    } else {
      assert Concat(lists) + failed.items == failed.items;
    }
  }

  /** When every category's search completes, the search yields their items
      in category order. */
  lemma SearchConcat(c: Client, q: string, names: seq<string>, fuel: nat, lists: seq<seq<Json>>)
    requires |lists| == |names|
    requires forall k :: 0 <= k < |names| ==> CategoryRun(c, q, names[k], fuel) == Run(lists[k], Completed)
    ensures SearchAll(c, q, names, fuel) == Run(Concat(lists), Completed)
  {
    ChainConcat(names, name => CategoryRun(c, q, name, fuel), lists);
  }

  /** A category whose search fails ends the whole search with its failure;
      later categories are never queried. */
  lemma SearchStops(c: Client, q: string, names: seq<string>, fuel: nat, lists: seq<seq<Json>>)
    requires |lists| < |names|
    requires forall k :: 0 <= k < |lists| ==> CategoryRun(c, q, names[k], fuel) == Run(lists[k], Completed)
    requires CategoryRun(c, q, names[|lists|], fuel).end.Failed?
    ensures var failed := CategoryRun(c, q, names[|lists|], fuel);
            SearchAll(c, q, names, fuel) == Run(Concat(lists) + failed.items, failed.end)
  {
    ChainStops(names, name => CategoryRun(c, q, name, fuel), lists);
  }

  /** A single-record lookup: fetch and parse, whatever the status code. */
  function Lookup(c: Client, uri: string): (r: Result<Json, Failure>)
    ensures Fetch(c, uri).TransportFailure? ==> r == Err(Transport(Fetch(c, uri).reason))
    ensures Fetch(c, uri).Response? ==> (r.Ok? <==> c.parse(Fetch(c, uri).body).Some?)
    ensures r.Ok? ==> Fetch(c, uri).Response? && c.parse(Fetch(c, uri).body) == Some(r.value)
  {
    match Fetch(c, uri)
    case TransportFailure(reason) => Err(Transport(reason))
    case Response(_, _, body) =>
      match c.parse(body)
      case None => Err(SyntaxError)
      case Some(j) => Ok(j)
  }

  /** `user(username)` and `org(org)` */
  function User(c: Client, username: string): Result<Json, Failure> {
    Lookup(c, Api + "users/" + c.encodeComponent(username))
  }

  function Org(c: Client, org: string): Result<Json, Failure> {
    Lookup(c, Api + "orgs/" + c.encodeComponent(org))
  }

  /** A lookup never looks at the status: an error response's body is
      returned as the record. */
  lemma LookupIgnoresStatus(c: Client, uri: string, code: int, hs: Headers, body: string, record: Json)
    requires Fetch(c, uri) == Response(code, hs, body) && c.parse(body) == Some(record)
    ensures Lookup(c, uri) == Ok(record)
  {
  }
}
