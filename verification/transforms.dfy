/** The GitHub recon transforms: the user search with its regular-expression
    filters and result cap, and the org, member, repository and contributor
    listings. Each consumes a lazy sequence from the client and turns items
    into graph nodes; a failure inside one item's lookup is reported and
    skipped, a failure of the sequence or of destructuring an item ends the
    transform. Compiling and running a regular expression are not modelled;
    a `Regex` carries them as functions. */
module Transforms {
  import opened Base
  import opened Json
  import opened GithubClient
  import Filters
  import RepoIds

  /** `getClient`: the client every transform uses. Only the key option is
      passed on, falling back to the environment's key when the option is
      absent (not when it is empty); no token is passed. */
  function GetClient(githubKey: Option<string>, envKey: Option<string>, base64: string -> string,
                     send: (string, Headers) -> Exchange, parse: string -> Option<Json>,
                     encodeComponent: string -> string, encodeQuery: string -> string): (c: Client)
    ensures forall uri :: Fetch(c, uri) == send(uri, c.headers)
    ensures "user-agent" in c.headers && c.headers["user-agent"] == "Pown"
    ensures "authorization" in c.headers <==> Filled(githubKey) || (githubKey.None? && Filled(envKey))
    ensures Filled(githubKey) ==> c.headers["authorization"] == "Basic " + base64(githubKey.value)
    ensures githubKey.None? && Filled(envKey) ==> c.headers["authorization"] == "Basic " + base64(envKey.value)
  {
    var key := if githubKey.Some? then githubKey else envKey;
    NewGithub(ClientOptions(key, None), base64, send, parse, encodeComponent, encodeQuery)
  }

  /** The kinds of node the transforms emit. */
  datatype NodeKind = UserNode | OrgNode | RepoNode

  function KindName(k: NodeKind): string {
    match k
    case UserNode => "github:user"
    case OrgNode => "github:org"
    case RepoNode => "github:repo"
  }

  /** A node: its kind, subject, image, the `uri` and full `info` properties,
      and the one edge back to the node the transform ran on. */
  datatype Node = Node(kind: NodeKind, title: Option<Json>, image: Option<Json>,
                       uri: Option<Json>, info: Json, source: string)

  /** A user or org node built from an account record. */
  function AccountNode(kind: NodeKind, info: Json, source: string): Node {
    Node(kind, Get(info, "login"), Get(info, "avatar_url"), Get(info, "html_url"), info, source)
  }

  /** What a transform returns: its nodes and the errors it reported along
      the way; or the failure that made it throw. */
  datatype Outcome = Done(nodes: seq<Node>, reported: seq<Failure>) | Aborted(failure: Failure)

  /** What the loop body makes of one item. */
  datatype Hit = Skip | Abort(failure: Failure) | Reported(failure: Failure) | Found(node: Node)

  // ---------------------------------------------------------------------
  // The shared loop

  /** Whether pushing the `count`-th node reaches the cap (`++i >= maxUsers`).
      No cap is `Infinity`. */
  predicate AtCap(cap: Option<int>, count: int) {
    cap.Some? && count >= cap.value
  }

  function Prepend(nodes: seq<Node>, reported: seq<Failure>, o: Outcome): Outcome {
    if o.Aborted? then o else Done(nodes + o.nodes, reported + o.reported)
  }

  /** `for await (item of stream) { ... }` over the hits of the items the
      stream produced, `found` nodes having been pushed already. */
  function Scan(hits: seq<Hit>, end: End, cap: Option<int>, found: nat): (o: Outcome)
    decreases |hits|
  {
    if |hits| == 0 then
      if end.Completed? then Done([], []) else Aborted(end.failure)
    else
      match hits[0]
      case Skip => Scan(hits[1..], end, cap, found)
      case Abort(f) => Aborted(f)
      case Reported(f) => Prepend([], [f], Scan(hits[1..], end, cap, found))
      case Found(n) =>
        if AtCap(cap, found + 1) then Done([n], [])
        else Prepend([n], [], Scan(hits[1..], end, cap, found + 1))
  }

  /** Reference: every node the hits would give, in order. */
  function FoundIn(hits: seq<Hit>): seq<Node>
    decreases |hits|
  {
    if |hits| == 0 then []
    else (if hits[0].Found? then [hits[0].node] else []) + FoundIn(hits[1..])
  }

  /** Reference: every error the hits would report, in order. */
  function ReportedIn(hits: seq<Hit>): seq<Failure>
    decreases |hits|
  {
    if |hits| == 0 then []
    else (if hits[0].Reported? then [hits[0].failure] else []) + ReportedIn(hits[1..])
  }

  predicate NoAbort(hits: seq<Hit>) {
    forall k :: 0 <= k < |hits| ==> !hits[k].Abort?
  }

  lemma NoAbortTail(hits: seq<Hit>)
    requires |hits| > 0 && NoAbort(hits)
    ensures !hits[0].Abort? && NoAbort(hits[1..])
  {
    forall k | 0 <= k < |hits| - 1 ensures !hits[1..][k].Abort? {
      assert hits[1..][k] == hits[k + 1];
    }
  }

  function Max(a: int, b: int): int {
    if a < b then b else a
  }

  /** The cap bounds the nodes: with `found` already pushed, the loop pushes
      at most up to the cap, and always at least the node that reaches it. */
  lemma {:induction false} ScanCap(hits: seq<Hit>, end: End, cap: Option<int>, found: nat)
    requires cap.Some?
    ensures var o := Scan(hits, end, cap, found);
            o.Done? ==> found + |o.nodes| <= Max(cap.value, found + 1)
    decreases |hits|
  {
    if |hits| > 0 {
      ScanCap(hits[1..], end, cap, found);
      ScanCap(hits[1..], end, cap, found + 1);
    }
  }

  /** The loop's nodes are the hits' nodes in order, possibly cut short by
      the cap: a prefix of the reference. */
  lemma {:induction false} ScanPrefix(hits: seq<Hit>, end: End, cap: Option<int>, found: nat)
    ensures var o := Scan(hits, end, cap, found);
            o.Done? ==> o.nodes <= FoundIn(hits)
    decreases |hits|
  {
    if |hits| > 0 {
      var rest := hits[1..];
      assert FoundIn(hits) == (if hits[0].Found? then [hits[0].node] else []) + FoundIn(rest);
      match hits[0]
      case Skip => ScanPrefix(rest, end, cap, found);
      case Abort(_) =>
      case Reported(_) => ScanPrefix(rest, end, cap, found);
      case Found(n) =>
        if !AtCap(cap, found + 1) {
          ScanPrefix(rest, end, cap, found + 1);
        }
    }
  }

  /** Without a cap the loop gives every node and every reported error, in
      order, when no item aborts; it throws exactly when the stream failed. */
  lemma {:induction false} ScanUncapped(hits: seq<Hit>, end: End, found: nat)
    requires NoAbort(hits)
    ensures Scan(hits, end, None, found) ==
              if end.Completed? then Done(FoundIn(hits), ReportedIn(hits)) else Aborted(end.failure)
    decreases |hits|
  {
    if |hits| > 0 {
      NoAbortTail(hits);
      ScanUncapped(hits[1..], end, found);
      ScanUncapped(hits[1..], end, found + 1);
    }
  }

  /** The first item that aborts, before the cap is reached, makes the
      transform throw its failure. */
  lemma {:induction false} ScanAborts(hits: seq<Hit>, end: End, cap: Option<int>, found: nat, k: nat)
    requires k < |hits| && hits[k].Abort? && NoAbort(hits[..k])
    requires !AtCap(cap, found + |FoundIn(hits[..k])|) || FoundIn(hits[..k]) == []
    ensures Scan(hits, end, cap, found) == Aborted(hits[k].failure)
    decreases k
  {
    if k > 0 {
      var rest := hits[1..];
      assert rest[..k - 1] == hits[..k][1..];
      NoAbortTail(hits[..k]);
      assert !hits[0].Abort? by {
        assert hits[..k][0] == hits[0];
      }
      if hits[0].Found? {
        assert FoundIn(hits[..k]) == [hits[0].node] + FoundIn(rest[..k - 1]);
        ScanAborts(rest, end, cap, found + 1, k - 1);
      } else {
        assert FoundIn(hits[..k]) == FoundIn(rest[..k - 1]);
        ScanAborts(rest, end, cap, found, k - 1);
      }
    }
  }

  /** Once enough nodes are found to reach the cap the loop breaks: when
      the hits up to some point hold no abort and enough nodes, the result is
      exactly the first of them up to the cap, whatever follows, even an
      abort or a failure of the stream. */
  lemma {:induction false} ScanStopsAtCap(pre: seq<Hit>, post: seq<Hit>, end: End, cap: int, found: nat)
    requires NoAbort(pre)
    requires |FoundIn(pre)| >= Max(cap - found, 1)
    ensures var o := Scan(pre + post, end, Some(cap), found);
            o.Done? && o.nodes == FoundIn(pre)[..Max(cap - found, 1)]
    decreases |pre|
  {
    var hits := pre + post;
    assert hits[0] == pre[0];
    assert hits[1..] == pre[1..] + post;
    NoAbortTail(pre);
    if pre[0].Found? {
      if !AtCap(Some(cap), found + 1) {
        ScanStopsAtCap(pre[1..], post, end, cap, found + 1);
      }
    } else {
      ScanStopsAtCap(pre[1..], post, end, cap, found);
    }
  }

  /** Every node the loop gives comes from a `Found` hit. */
  lemma ScanNodesFound(hits: seq<Hit>, end: End, cap: Option<int>, found: nat)
    ensures var o := Scan(hits, end, cap, found);
            o.Done? ==> forall n :: n in o.nodes ==> exists k :: 0 <= k < |hits| && hits[k] == Found(n)
  {
    var o := Scan(hits, end, cap, found);
    ScanPrefix(hits, end, cap, found);
    if o.Done? {
      forall n | n in o.nodes ensures exists k :: 0 <= k < |hits| && hits[k] == Found(n) {
        var i :| 0 <= i < |o.nodes| && o.nodes[i] == n;
        assert n in FoundIn(hits);
        FoundInMembers(hits, n);
      }
    }
  }

  /** With no skips and no aborts every item gives a node or a reported
      error. */
  lemma {:induction false} FoundPlusReported(hits: seq<Hit>)
    requires forall k :: 0 <= k < |hits| ==> hits[k].Found? || hits[k].Reported?
    ensures |FoundIn(hits)| + |ReportedIn(hits)| == |hits|
    decreases |hits|
  {
    if |hits| > 0 {
      FoundPlusReported(hits[1..]);
    }
  }

  /** Every node the reference lists comes from a `Found` hit. */
  lemma {:induction false} FoundInMembers(hits: seq<Hit>, n: Node)
    requires n in FoundIn(hits)
    ensures exists k :: 0 <= k < |hits| && hits[k] == Found(n)
    decreases |hits|
  {
    if hits[0] != Found(n) {
      FoundInMembers(hits[1..], n);
      var k :| 0 <= k < |hits[1..]| && hits[1..][k] == Found(n);
      assert hits[k + 1] == Found(n);
    }
  }

  // ---------------------------------------------------------------------
  // Search users: filters

  /** The profile field a filter tests. */
  datatype Field = Email | Company | Bio

  function FieldName(f: Field): string {
    match f
    case Email => "email"
    case Company => "company"
    case Bio => "bio"
  }

  /** A case-insensitive regular expression over one field. */
  datatype Predicate = Predicate(field: Field, pattern: string)

  /** `new RegExp(pattern, 'i')` succeeding, and `regex.test(subject)`. */
  datatype Regex = Regex(compiles: string -> bool, test: (string, string) -> bool)

  /** The search transform's options. */
  datatype SearchOptions = SearchOptions(
    quitIfNoFilters: bool,
    emailFilter: Option<string>,
    companyFilter: Option<string>,
    bioFilter: Option<string>,
    fuzzyDomainFilter: Option<string>,
    fuzzyBrandFilter: Option<string>,
    andFilter: bool,
    orFilter: bool,
    maxUsers: Option<int>)  // None is Infinity

  function Explicit(field: Field, v: Option<string>): seq<Predicate> {
    if Filled(v) then [Predicate(field, v.value)] else []
  }

  function Fuzzy(field: Field, pattern: Option<string>): seq<Predicate> {
    if pattern.Some? then [Predicate(field, pattern.value)] else []
  }

  /** One fuzzy list through the three builders, in e-mail, company, bio order. */
  function FuzzyPredicates(f: Filters.FilterInput): seq<Predicate> {
    FuzzyTriple(Filters.EmailFilter(f), Filters.CompanyFilter(f), Filters.BioFilter(f))
  }

  function FuzzyTriple(e: Option<string>, c: Option<string>, b: Option<string>): seq<Predicate> {
    Fuzzy(Email, e) + Fuzzy(Company, c) + Fuzzy(Bio, b)
  }

  function Present(v: Option<string>): nat {
    if v.Some? then 1 else 0
  }

  /** One filter per built pattern; with no e-mail pattern, no e-mail filter. */
  lemma FuzzyTripleShape(e: Option<string>, c: Option<string>, b: Option<string>)
    ensures |FuzzyTriple(e, c, b)| == Present(e) + Present(c) + Present(b)
    ensures e.None? ==> forall k :: 0 <= k < |FuzzyTriple(e, c, b)| ==> FuzzyTriple(e, c, b)[k].field != Email
  {
    if e.None? {
      assert FuzzyTriple(e, c, b) == Fuzzy(Company, c) + Fuzzy(Bio, b);
    }
  }

  /** The filters, in the order they are pushed: the explicit e-mail,
      company and bio patterns, then the fuzzy domain filters, then the
      fuzzy brand filters. */
  function Predicates(o: SearchOptions): seq<Predicate> {
    Explicit(Email, o.emailFilter) + Explicit(Company, o.companyFilter) + Explicit(Bio, o.bioFilter)
      + (if Filled(o.fuzzyDomainFilter) then FuzzyPredicates(Filters.FilterInput(o.fuzzyDomainFilter, None)) else [])
      + (if Filled(o.fuzzyBrandFilter) then FuzzyPredicates(Filters.FilterInput(None, o.fuzzyBrandFilter)) else [])
  }

  function Count(b: bool, n: nat): nat {
    if b then n else 0
  }

  lemma FuzzyDomainCount(d: Option<string>)
    ensures |FuzzyPredicates(Filters.FilterInput(d, None))| == Count(!Filters.Blank(d), 3)
  {
    var f := Filters.FilterInput(d, None);
    Filters.FiltersPresent(f);
    FuzzyTripleShape(Filters.EmailFilter(f), Filters.CompanyFilter(f), Filters.BioFilter(f));
  }

  lemma FuzzyBrandCount(b: Option<string>)
    ensures |FuzzyPredicates(Filters.FilterInput(None, b))| == Count(!Filters.Blank(b), 2)
    ensures forall k :: 0 <= k < |FuzzyPredicates(Filters.FilterInput(None, b))| ==>
              FuzzyPredicates(Filters.FilterInput(None, b))[k].field != Email
  {
    var f := Filters.FilterInput(None, b);
    Filters.FiltersPresent(f);
    FuzzyTripleShape(Filters.EmailFilter(f), Filters.CompanyFilter(f), Filters.BioFilter(f));
  }

  lemma FilledIfNotBlank(v: Option<string>)
    ensures !Filters.Blank(v) ==> Filled(v)
  {
    if v.Some? && v.value == "" {
      assert Filters.Raw(v) == "";
    }
  }

  /** How many filters the options give: one per explicit pattern, three
      for a non-blank fuzzy domain list (e-mail, company, bio) and two for
      a non-blank fuzzy brand list (company, bio: the e-mail builder ignores
      brands). */
  lemma PredicateCount(o: SearchOptions)
    ensures |Predicates(o)| ==
      Count(Filled(o.emailFilter), 1) + Count(Filled(o.companyFilter), 1) + Count(Filled(o.bioFilter), 1)
      + Count(!Filters.Blank(o.fuzzyDomainFilter), 3) + Count(!Filters.Blank(o.fuzzyBrandFilter), 2)
  {
    FuzzyDomainCount(o.fuzzyDomainFilter);
    FuzzyBrandCount(o.fuzzyBrandFilter);
    FilledIfNotBlank(o.fuzzyDomainFilter);
    FilledIfNotBlank(o.fuzzyBrandFilter);
    if !Filled(o.fuzzyDomainFilter) {
      assert Filters.Raw(o.fuzzyDomainFilter) == "";
    }
    if !Filled(o.fuzzyBrandFilter) {
      assert Filters.Raw(o.fuzzyBrandFilter) == "";
    }
  }

  /** How the filters combine. */
  datatype Combination = PassAll | AnyOf | EveryOf

  /** No filters pass everything; otherwise `orFilter` wins over
      `andFilter`, and with neither set every user passes. */
  function Combine(preds: seq<Predicate>, o: SearchOptions): (m: Combination)
    ensures |preds| == 0 ==> m == PassAll
    ensures |preds| > 0 && o.orFilter ==> m == AnyOf
    ensures |preds| > 0 && !o.orFilter && o.andFilter ==> m == EveryOf
    ensures !o.orFilter && !o.andFilter ==> m == PassAll
  {
    if |preds| == 0 then PassAll
    else if o.orFilter then AnyOf
    else if o.andFilter then EveryOf
    else PassAll
  }

  /** The tested text of a profile field: `field || ''`, as a string. */
  function FieldText(info: Json, f: Field): string {
    OrEmpty(Get(info, FieldName(f)))
  }

  predicate Holds(rx: Regex, p: Predicate, info: Json) {
    rx.test(p.pattern, FieldText(info, p.field))
  }

  predicate Passes(rx: Regex, preds: seq<Predicate>, m: Combination, info: Json) {
    match m
    case PassAll => true
    case AnyOf => exists k | 0 <= k < |preds| :: Holds(rx, preds[k], info)
    case EveryOf => forall k | 0 <= k < |preds| :: Holds(rx, preds[k], info)
  }

  // ---------------------------------------------------------------------
  // Search users: the loop

  /** The loop body for one search item: non-users are skipped; the user
      is looked up; a lookup that throws is reported; a user the filter
      rejects is skipped. */
  function SearchHit(c: Client, rx: Regex, preds: seq<Predicate>, m: Combination,
                     source: string, item: Json): (h: Hit)
    ensures h.Found? ==> h.node.kind == UserNode && h.node.source == source
                         && !h.node.info.Null? && Passes(rx, preds, m, h.node.info)
    ensures h.Found? ==> Get(item, "type") == Some(Str("User"))
                         && User(c, Text(Get(item, "login"))) == Ok(h.node.info)
    ensures h.Abort? <==> item.Null?
    ensures !item.Null? && Get(item, "type") != Some(Str("User")) ==> h == Skip
    ensures !item.Null? && Get(item, "type") == Some(Str("User")) && User(c, Text(Get(item, "login"))).Err? ==>
              h == Reported(User(c, Text(Get(item, "login"))).error)
    ensures !item.Null? && Get(item, "type") == Some(Str("User")) ==>
              var r := User(c, Text(Get(item, "login")));
              && (r == Ok(Null) ==> h == Reported(TypeError))
              && (r.Ok? && !r.value.Null? && Passes(rx, preds, m, r.value) ==>
                    h == Found(AccountNode(UserNode, r.value, source)))
              && (r.Ok? && !r.value.Null? && !Passes(rx, preds, m, r.value) ==> h == Skip)
  {
    if item.Null? then Abort(TypeError)
    else if Get(item, "type") != Some(Str("User")) then Skip
    else
      match User(c, Text(Get(item, "login")))
      case Err(f) => Reported(f)
      case Ok(info) =>
        if info.Null? then Reported(TypeError)
        else if !Passes(rx, preds, m, info) then Skip
        else Found(AccountNode(UserNode, info, source))
  }

  function SearchHits(c: Client, rx: Regex, preds: seq<Predicate>, m: Combination,
                      source: string, items: seq<Json>): (hs: seq<Hit>)
    ensures |hs| == |items|
    ensures forall k :: 0 <= k < |items| ==> hs[k] == SearchHit(c, rx, preds, m, source, items[k])
  {
    seq(|items|, k requires 0 <= k < |items| => SearchHit(c, rx, preds, m, source, items[k]))
  }

  /** `githubSearchUsers.handle`: build the filters, quit early if asked to
      and there are none, then search users for the subject. */
  function SearchUsers(c: Client, rx: Regex, o: SearchOptions, subject: string, source: string,
                       fuel: nat): Outcome {
    var preds := Predicates(o);
    if exists k | 0 <= k < |preds| :: !rx.compiles(preds[k].pattern) then Aborted(SyntaxError)
    else if |preds| == 0 && o.quitIfNoFilters then Done([], [])
    else
      var stream := Search(c, subject, CategoryList(["users"]), fuel);
      Scan(SearchHits(c, rx, preds, Combine(preds, o), source, stream.items), stream.end, o.maxUsers, 0)
  }

  /** With no filters and `quitIfNoFilters` nothing is requested. */
  lemma QuitWithoutFilters(c: Client, rx: Regex, o: SearchOptions, subject: string, source: string, fuel: nat)
    requires o.quitIfNoFilters && |Predicates(o)| == 0
    ensures SearchUsers(c, rx, o, subject, source, fuel) == Done([], [])
  {
  }

  /** A pattern that does not compile makes the transform throw before any
      request. */
  lemma BadPatternThrows(c: Client, rx: Regex, o: SearchOptions, subject: string, source: string,
                         fuel: nat, k: nat)
    requires k < |Predicates(o)| && !rx.compiles(Predicates(o)[k].pattern)
    ensures SearchUsers(c, rx, o, subject, source, fuel) == Aborted(SyntaxError)
  {
  }

  /** The users found are a prefix, in search order, of the users the
      filter accepts. */
  lemma SearchUsersInOrder(c: Client, rx: Regex, o: SearchOptions, subject: string, source: string, fuel: nat)
    ensures var out := SearchUsers(c, rx, o, subject, source, fuel);
            var preds := Predicates(o);
            var stream := Search(c, subject, CategoryList(["users"]), fuel);
      out.Done? ==> out.nodes <= FoundIn(SearchHits(c, rx, preds, Combine(preds, o), source, stream.items))
  {
    var preds := Predicates(o);
    var stream := Search(c, subject, CategoryList(["users"]), fuel);
    ScanPrefix(SearchHits(c, rx, preds, Combine(preds, o), source, stream.items), stream.end, o.maxUsers, 0);
  }

  /** Every user found is a user node for this source whose profile passes
      the combined filter, and there are at most `max(maxUsers, 1)` of
      them. */
  lemma SearchUsersSound(c: Client, rx: Regex, o: SearchOptions, subject: string, source: string, fuel: nat)
    ensures var out := SearchUsers(c, rx, o, subject, source, fuel);
            var preds := Predicates(o);
      out.Done? ==>
        && (o.maxUsers.Some? ==> |out.nodes| <= Max(o.maxUsers.value, 1))
        && forall n :: n in out.nodes ==>
             n.kind == UserNode && n.source == source && Passes(rx, preds, Combine(preds, o), n.info)
  {
    var preds := Predicates(o);
    if !(exists k | 0 <= k < |preds| :: !rx.compiles(preds[k].pattern)) && !(|preds| == 0 && o.quitIfNoFilters) {
      var stream := Search(c, subject, CategoryList(["users"]), fuel);
      var hits := SearchHits(c, rx, preds, Combine(preds, o), source, stream.items);
      var out := Scan(hits, stream.end, o.maxUsers, 0);
      if o.maxUsers.Some? {
        ScanCap(hits, stream.end, o.maxUsers, 0);
      }
      ScanPrefix(hits, stream.end, o.maxUsers, 0);
      if out.Done? {
        forall n | n in out.nodes
          ensures n.kind == UserNode && n.source == source && Passes(rx, preds, Combine(preds, o), n.info)
        {
          var i :| 0 <= i < |out.nodes| && out.nodes[i] == n;
          assert n in FoundIn(hits);
          FoundInMembers(hits, n);
        }
      }
    }
  }

  /** Without a cap, when no search item is null and the search completes,
      the result is every user the filter accepts, in search order. */
  lemma SearchUsersComplete(c: Client, rx: Regex, o: SearchOptions, subject: string, source: string, fuel: nat)
    requires o.maxUsers.None?
    requires forall k :: 0 <= k < |Predicates(o)| ==> rx.compiles(Predicates(o)[k].pattern)
    requires |Predicates(o)| > 0 || !o.quitIfNoFilters
    requires var stream := Search(c, subject, CategoryList(["users"]), fuel);
             stream.end.Completed? && forall k :: 0 <= k < |stream.items| ==> !stream.items[k].Null?
    ensures var stream := Search(c, subject, CategoryList(["users"]), fuel);
            var preds := Predicates(o);
            var hits := SearchHits(c, rx, preds, Combine(preds, o), source, stream.items);
            SearchUsers(c, rx, o, subject, source, fuel) == Done(FoundIn(hits), ReportedIn(hits))
  {
    var stream := Search(c, subject, CategoryList(["users"]), fuel);
    var preds := Predicates(o);
    var hits := SearchHits(c, rx, preds, Combine(preds, o), source, stream.items);
    ScanUncapped(hits, stream.end, 0);
  }

  // ---------------------------------------------------------------------
  // Listings

  /** An account lookup: a throw or a null record is reported; any other
      record becomes a node. */
  function AccountHit(kind: NodeKind, r: Result<Json, Failure>, source: string): (h: Hit)
    ensures h.Found? || h.Reported?
    ensures h.Found? <==> r.Ok? && !r.value.Null?
    ensures h.Found? ==> h.node == AccountNode(kind, r.value, source)
    ensures r.Err? ==> h == Reported(r.error)
  {
    match r
    case Err(f) => Reported(f)
    case Ok(info) => if info.Null? then Reported(TypeError) else Found(AccountNode(kind, info, source))
  }

  /** `githubListOrgs`: each org of the user, looked up. */
  function OrgHit(c: Client, source: string, item: Json): (h: Hit)
    ensures h.Abort? <==> item.Null?
    ensures h.Found? ==> Org(c, Text(Get(item, "login"))) == Ok(h.node.info)
                         && h.node == AccountNode(OrgNode, h.node.info, source)
  {
    if item.Null? then Abort(TypeError)
    else AccountHit(OrgNode, Org(c, Text(Get(item, "login"))), source)
  }

  /** `githubListMembers` and `githubListContributors`: each user, looked up. */
  function MemberHit(c: Client, source: string, item: Json): (h: Hit)
    ensures h.Abort? <==> item.Null?
    ensures h.Found? ==> User(c, Text(Get(item, "login"))) == Ok(h.node.info)
                         && h.node == AccountNode(UserNode, h.node.info, source)
  {
    if item.Null? then Abort(TypeError)
    else AccountHit(UserNode, User(c, Text(Get(item, "login"))), source)
  }

  function OrgHits(c: Client, source: string, items: seq<Json>): (hs: seq<Hit>)
    ensures |hs| == |items| && forall k :: 0 <= k < |items| ==> hs[k] == OrgHit(c, source, items[k])
  {
    seq(|items|, k requires 0 <= k < |items| => OrgHit(c, source, items[k]))
  }

  function MemberHits(c: Client, source: string, items: seq<Json>): (hs: seq<Hit>)
    ensures |hs| == |items| && forall k :: 0 <= k < |items| ==> hs[k] == MemberHit(c, source, items[k])
  {
    seq(|items|, k requires 0 <= k < |items| => MemberHit(c, source, items[k]))
  }

  /** When each item's hit is the account its login's lookup gave, so is
      every node of an uncapped listing. */
  lemma ListedAccounts(hits: seq<Hit>, items: seq<Json>, end: End, lookup: string -> Result<Json, Failure>,
                       kind: NodeKind, source: string)
    requires |hits| == |items|
    requires forall k :: 0 <= k < |items| && hits[k].Found? ==>
               lookup(Text(Get(items[k], "login"))) == Ok(hits[k].node.info)
               && hits[k].node == AccountNode(kind, hits[k].node.info, source)
    ensures var o := Scan(hits, end, None, 0);
            o.Done? ==> forall n :: n in o.nodes ==>
              && n == AccountNode(kind, n.info, source)
              && exists i :: 0 <= i < |items| && lookup(Text(Get(items[i], "login"))) == Ok(n.info)
  {
    ScanNodesFound(hits, end, None, 0);
  }

  /** Every org node is the record the lookup gave for the login of some
      listed org. */
  function ListOrgs(c: Client, subject: string, source: string, fuel: nat): (o: Outcome)
    ensures o.Done? ==> forall n :: n in o.nodes ==>
              && n == AccountNode(OrgNode, n.info, source)
              && exists i :: 0 <= i < |Orgs(c, subject, fuel).items|
                             && Org(c, Text(Get(Orgs(c, subject, fuel).items[i], "login"))) == Ok(n.info)
  {
    var stream := Orgs(c, subject, fuel);
    var hits := OrgHits(c, source, stream.items);
    ListedAccounts(hits, stream.items, stream.end, login => Org(c, login), OrgNode, source);
    Scan(hits, stream.end, None, 0)
  }

  /** Every user node is the record the lookup gave for the login of some
      listed member. */
  function ListMembers(c: Client, subject: string, source: string, fuel: nat): (o: Outcome)
    ensures o.Done? ==> forall n :: n in o.nodes ==>
              && n == AccountNode(UserNode, n.info, source)
              && exists i :: 0 <= i < |Members(c, subject, fuel).items|
                             && User(c, Text(Get(Members(c, subject, fuel).items[i], "login"))) == Ok(n.info)
  {
    var stream := Members(c, subject, fuel);
    var hits := MemberHits(c, source, stream.items);
    ListedAccounts(hits, stream.items, stream.end, login => User(c, login), UserNode, source);
    Scan(hits, stream.end, None, 0)
  }

  /** When the listing completes and no item is null, the result is every
      org the lookups gave, and every error they raised, in listing order:
      each item ends up either as a node or as a reported error. */
  lemma ListOrgsAccountsForEveryItem(c: Client, subject: string, source: string, fuel: nat)
    requires Orgs(c, subject, fuel).end.Completed?
    requires forall k :: 0 <= k < |Orgs(c, subject, fuel).items| ==> !Orgs(c, subject, fuel).items[k].Null?
    ensures var out := ListOrgs(c, subject, source, fuel);
            var hits := OrgHits(c, source, Orgs(c, subject, fuel).items);
            && out == Done(FoundIn(hits), ReportedIn(hits))
            && |out.nodes| + |out.reported| == |Orgs(c, subject, fuel).items|
  {
    var stream := Orgs(c, subject, fuel);
    var hits := OrgHits(c, source, stream.items);
    ScanUncapped(hits, stream.end, 0);
    FoundPlusReported(hits);
  }

  lemma ListMembersAccountsForEveryItem(c: Client, subject: string, source: string, fuel: nat)
    requires Members(c, subject, fuel).end.Completed?
    requires forall k :: 0 <= k < |Members(c, subject, fuel).items| ==> !Members(c, subject, fuel).items[k].Null?
    ensures var out := ListMembers(c, subject, source, fuel);
            var hits := MemberHits(c, source, Members(c, subject, fuel).items);
            && out == Done(FoundIn(hits), ReportedIn(hits))
            && |out.nodes| + |out.reported| == |Members(c, subject, fuel).items|
  {
    var stream := Members(c, subject, fuel);
    var hits := MemberHits(c, source, stream.items);
    ScanUncapped(hits, stream.end, 0);
    FoundPlusReported(hits);
  }

  /** A listing that fails makes the transform throw, whatever the lookups
      gave. */
  lemma ListMembersFails(c: Client, subject: string, source: string, fuel: nat)
    requires Members(c, subject, fuel).end.Failed?
    requires forall k :: 0 <= k < |Members(c, subject, fuel).items| ==> !Members(c, subject, fuel).items[k].Null?
    ensures ListMembers(c, subject, source, fuel) == Aborted(Members(c, subject, fuel).end.failure)
  {
    var stream := Members(c, subject, fuel);
    ScanUncapped(MemberHits(c, source, stream.items), stream.end, 0);
  }

  /** `githubListRepos`: forks are dropped unless `forks` is set. No lookup,
      and nothing is caught: a null item throws. */
  function RepoHit(forks: bool, source: string, info: Json): (h: Hit)
    ensures h.Abort? <==> info.Null?
    ensures h.Skip? <==> !info.Null? && Truthy(Get(info, "fork")) && !forks
    ensures h.Found? ==> h.node.info == info && h.node.kind == RepoNode && h.node.source == source
  {
    if info.Null? then Abort(TypeError)
    else if Truthy(Get(info, "fork")) && !forks then Skip
    else Found(Node(RepoNode, Get(info, "name"), None, Get(info, "html_url"), info, source))
  }

  function RepoHits(forks: bool, source: string, items: seq<Json>): (hs: seq<Hit>)
    ensures |hs| == |items| && forall k :: 0 <= k < |items| ==> hs[k] == RepoHit(forks, source, items[k])
  {
    seq(|items|, k requires 0 <= k < |items| => RepoHit(forks, source, items[k]))
  }

  /** Every repository node is a listed repository, and without `forks`
      never a fork. */
  function ListRepos(c: Client, forks: bool, subject: string, source: string, fuel: nat): (o: Outcome)
    ensures o.Done? ==> forall n :: n in o.nodes ==>
              && n.kind == RepoNode && n.source == source
              && n.info in Repos(c, subject, fuel).items
              && (!forks ==> !Truthy(Get(n.info, "fork")))
  {
    var stream := Repos(c, subject, fuel);
    var hits := RepoHits(forks, source, stream.items);
    ScanNodesFound(hits, stream.end, None, 0);
    Scan(hits, stream.end, None, 0)
  }

  /** Reference: the repositories kept, in order. */
  function Kept(forks: bool, items: seq<Json>): seq<Json>
    decreases |items|
  {
    if |items| == 0 then []
    else (if Truthy(Get(items[0], "fork")) && !forks then [] else [items[0]]) + Kept(forks, items[1..])
  }

  lemma {:induction false} RepoHitsFound(forks: bool, source: string, items: seq<Json>)
    requires forall k :: 0 <= k < |items| ==> !items[k].Null?
    ensures var ns := FoundIn(RepoHits(forks, source, items));
            |ns| == |Kept(forks, items)| && forall k :: 0 <= k < |ns| ==> ns[k].info == Kept(forks, items)[k]
    decreases |items|
  {
    if |items| > 0 {
      RepoHitsFound(forks, source, items[1..]);
      assert RepoHits(forks, source, items)[1..] == RepoHits(forks, source, items[1..]);
    }
  }

  /** A completed repository listing yields one node per kept repository,
      in order: every one with `forks`, only the non-forks without. */
  lemma ListReposKeepsNonForks(c: Client, forks: bool, subject: string, source: string, fuel: nat)
    requires Repos(c, subject, fuel).end.Completed?
    requires forall k :: 0 <= k < |Repos(c, subject, fuel).items| ==> !Repos(c, subject, fuel).items[k].Null?
    ensures var out := ListRepos(c, forks, subject, source, fuel);
            var kept := Kept(forks, Repos(c, subject, fuel).items);
            out.Done? && |out.nodes| == |kept| && forall k :: 0 <= k < |kept| ==> out.nodes[k].info == kept[k]
  {
    var stream := Repos(c, subject, fuel);
    var hits := RepoHits(forks, source, stream.items);
    ScanUncapped(hits, stream.end, 0);
    RepoHitsFound(forks, source, stream.items);
  }

  /** With `forks` nothing is dropped. */
  lemma {:induction false} KeptAll(items: seq<Json>)
    ensures Kept(true, items) == items
    decreases |items|
  {
    if |items| > 0 {
      KeptAll(items[1..]);
      assert items == [items[0]] + items[1..];
    }
  }

  /** Without `forks` a repository is kept exactly when it is not a fork. */
  lemma {:induction false} KeptNonForks(items: seq<Json>)
    ensures forall j :: 0 <= j < |Kept(false, items)| ==> !Truthy(Get(Kept(false, items)[j], "fork"))
    ensures forall k :: 0 <= k < |items| && !Truthy(Get(items[k], "fork")) ==> items[k] in Kept(false, items)
    decreases |items|
  {
    if |items| > 0 {
      KeptNonForks(items[1..]);
      forall k | 0 < k < |items| && !Truthy(Get(items[k], "fork"))
        ensures items[k] in Kept(false, items)
      {
        assert items[1..][k - 1] == items[k];
      }
    }
  }

  /** The contributor loop over a contributor stream: every node is the
      record the lookup gave for the login of some listed contributor. */
  function Contributors(c: Client, stream: Run<Json>, source: string): (o: Outcome)
    ensures o.Done? ==> forall n :: n in o.nodes ==>
              && n == AccountNode(UserNode, n.info, source)
              && exists i :: 0 <= i < |stream.items| && User(c, Text(Get(stream.items[i], "login"))) == Ok(n.info)
  {
    var hits := MemberHits(c, source, stream.items);
    ListedAccounts(hits, stream.items, stream.end, login => User(c, login), UserNode, source);
    Scan(hits, stream.end, None, 0)
  }

  /** `githubListContributors`: the repository is extracted from the label
      and the node's `uri` and `url` properties; the contributors stream
      (which the client does not define) is a parameter; each contributor
      is looked up as a user. */
  function ListContributors(c: Client, contributors: string -> Run<Json>, subject: string,
                            props: Option<Json>, source: string): (o: Outcome)
    ensures props == Some(Null) ==> o == Aborted(TypeError)
    ensures o.Done? ==> forall n :: n in o.nodes ==> n == AccountNode(UserNode, n.info, source)
  {
    var p := if props.Some? then props.value else Obj(map[]);
    if p.Null? then Aborted(TypeError)
    else
      var uri := Get(p, "uri");
      var url := Get(p, "url");
      match RepoIds.ExtractFrom([Some(Str(subject)), uri, url])
      case Err(message) => Aborted(Thrown(message))
      case Ok(repo) =>
        Contributors(c, contributors(repo), source)
  }

  /** A label or property the extractor cannot read makes the transform
      throw the extractor's message before any request; otherwise the
      contributors of the extracted repository are listed: when no item is
      null, the result is every user the lookups gave and every error they
      raised, in order, or the failure of the listing. */
  lemma ListContributorsMeaning(c: Client, contributors: string -> Run<Json>, subject: string,
                                props: Json, source: string)
    requires !props.Null?
    ensures var args := [Some(Str(subject)), Get(props, "uri"), Get(props, "url")];
            var tested := RepoIds.Tested(args);
            var out := ListContributors(c, contributors, subject, Some(props), source);
      && tested[0] == subject
      && (RepoIds.Extract(tested).Err? ==>
            out == Aborted(Thrown(RepoIds.NoRepoMessage + Join(RepoIds.Printed(args), ","))))
      && (RepoIds.Extract(tested).Ok? ==>
            var stream := contributors(RepoIds.Extract(tested).value);
            var hits := MemberHits(c, source, stream.items);
            (forall k :: 0 <= k < |stream.items| ==> !stream.items[k].Null?) ==>
              out == if stream.end.Completed? then Done(FoundIn(hits), ReportedIn(hits))
                     else Aborted(stream.end.failure))
  {
    var args := [Some(Str(subject)), Get(props, "uri"), Get(props, "url")];
    var tested := RepoIds.Tested(args);
    RepoIds.ExtractFailsIffNoMatch(tested);
    var e := RepoIds.ExtractFrom(args);
    assert e.Ok? <==> RepoIds.Extract(tested).Ok?;
    if e.Ok? {
      var stream := contributors(e.value);
      if forall k :: 0 <= k < |stream.items| ==> !stream.items[k].Null? {
        ScanUncapped(MemberHits(c, source, stream.items), stream.end, 0);
      }
    }
  }
}
