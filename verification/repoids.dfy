/** The repository identifier extractor of lib/utils.js.

    Two patterns, hand-compiled to string predicates:
    - the bare form `^([a-z0-0-]+)\/([a-z0-0-]+)(\.git)?$`, anchored at
      both ends;
    - the URL form `^https:\/\/github.com\/([a-z0-0-]+)\/([a-z0-0-]+)(\.git)?`,
      anchored only at the start, whose unescaped `.` accepts any
      character but a line terminator.
    The class `[a-z0-0-]` is the lower-case letters, the digit `0` and
    `-`; there is no case-insensitive flag. */
module RepoIds {
  import opened Base
  import opened Json

  predicate IsNameChar(c: char) {
    ('a' <= c <= 'z') || c == '0' || c == '-'
  }

  /** One or more characters of `[a-z0-0-]`. */
  predicate IsName(s: string) {
    |s| > 0 && forall i :: 0 <= i < |s| ==> IsNameChar(s[i])
  }

  /** What `.` refuses without the `s` flag. */
  predicate IsLineTerminator(c: char) {
    c == '\n' || c == '\r' || c == '\U{2028}' || c == '\U{2029}'
  }

  /** The first index at or after `i` that is not a name character, or `|s|`:
      where a greedy `[a-z0-0-]+` starting at `i` stops. */
  function NameEnd(s: string, i: nat): (k: nat)
    requires i <= |s|
    ensures i <= k <= |s|
    ensures forall j :: i <= j < k ==> IsNameChar(s[j])
    ensures k < |s| ==> !IsNameChar(s[k])
    decreases |s| - i
  {
    if i == |s| || !IsNameChar(s[i]) then i else NameEnd(s, i + 1)
  }

  /** The captured owner and name of a match. */
  datatype RepoId = RepoId(owner: string, name: string)

  /** `owner/name`, the extractor's output. */
  function Show(id: RepoId): string {
    id.owner + "/" + id.name
  }

  /** `s.match(isGithubRepo)`: groups 1 and 2, or no match. */
  function MatchBare(s: string): Option<RepoId> {
    var i := NameEnd(s, 0);
    if i == 0 || i == |s| || s[i] != '/' then None
    else
      var j := NameEnd(s, i + 1);
      if j == i + 1 then None
      else if j == |s| then Some(RepoId(s[..i], s[i + 1..]))
      else if s[j..] == ".git" then Some(RepoId(s[..i], s[i + 1..j]))
      else None
  }

  const UrlScheme := "https://github"
  const UrlHost := "com/"

  /** Characters 0..19 of a URL-form match: `https://github` + any
      non-terminator + `com/`. */
  predicate HasUrlHead(s: string) {
    |s| >= 19 && s[..14] == UrlScheme && !IsLineTerminator(s[14]) && s[15..19] == UrlHost
  }

  /** `s.match(isGithubRepoUrl)`: groups 1 and 2, or no match. The optional
      `.git` and everything after the name are not part of the match. */
  function MatchUrl(s: string): Option<RepoId> {
    if !HasUrlHead(s) then None
    else
      var i := NameEnd(s, 19);
      if i == 19 || i == |s| || s[i] != '/' then None
      else
        var j := NameEnd(s, i + 1);
        if j == i + 1 then None else Some(RepoId(s[19..i], s[i + 1..j]))
  }

  /** The index of the first candidate the matcher accepts. */
  function FirstMatch(cs: seq<string>, m: string -> Option<RepoId>): (r: Option<nat>)
    ensures r.Some? ==> r.value < |cs| && m(cs[r.value]).Some?
    ensures r.Some? ==> forall j :: 0 <= j < r.value ==> m(cs[j]).None?
    ensures r.None? ==> forall j :: 0 <= j < |cs| ==> m(cs[j]).None?
    decreases |cs|
  {
    if |cs| == 0 then None
    else if m(cs[0]).Some? then Some(0)
    else
      match FirstMatch(cs[1..], m)
      case None => None
      case Some(k) => Some(k + 1)
  }

  /** The identifier the extractor settles on: the first URL-form
      candidate's, and only when there is none the first bare-form
      candidate's. */
  function Winner(cs: seq<string>): Option<RepoId> {
    match FirstMatch(cs, MatchUrl)
    case Some(i) => MatchUrl(cs[i])
    case None =>
      match FirstMatch(cs, MatchBare)
      case Some(i) => MatchBare(cs[i])
      case None => None
  }

  /** `extractGithubRepo(...options)` over the stringified candidates: the
      winner shown as `owner/name`, or the error. */
  function Extract(cs: seq<string>): Result<string, string> {
    match Winner(cs)
    case Some(id) => Ok(Show(id))
    case None => Err(NoRepoMessage + Join(cs, ","))
  }

  const NoRepoMessage := "Cannot extract GitHub repo from options "

  /** `String(option)` of each argument: what the patterns test. */
  function Tested(args: seq<Option<Json>>): (t: seq<string>)
    ensures |t| == |args| && forall i :: 0 <= i < |args| ==> t[i] == Text(args[i])
  {
    seq(|args|, i requires 0 <= i < |args| => Text(args[i]))
  }

  /** Each argument as the template literal `${options}` prints the
      argument array: `undefined` and `null` print as nothing. */
  function Printed(args: seq<Option<Json>>): (t: seq<string>)
    ensures |t| == |args| && forall i :: 0 <= i < |args| ==> t[i] == ElementText(args[i])
  {
    seq(|args|, i requires 0 <= i < |args| => ElementText(args[i]))
  }

  /** `extractGithubRepo(...args)` over arbitrary values: the patterns test
      each argument's string conversion, and the message prints the
      argument array. */
  function ExtractFrom(args: seq<Option<Json>>): (r: Result<string, string>)
    ensures r.Ok? <==> exists i :: 0 <= i < |args| && (MatchUrl(Text(args[i])).Some? || MatchBare(Text(args[i])).Some?)
    ensures r.Ok? ==> r == Extract(Tested(args))
    ensures r.Err? ==> r.error == NoRepoMessage + Join(Printed(args), ",")
  {
    var tested := Tested(args);
    ExtractFailsIffNoMatch(tested);
    match Extract(tested)
    case Ok(v) => Ok(v)
    case Err(_) => Err(NoRepoMessage + Join(Printed(args), ","))
  }

  /** `undefined` and `null` arguments differ between the two: they are
      tested as the words `undefined` and `null`, which match neither form,
      and printed as the empty string. */
  lemma AbsentArgument(args: seq<Option<Json>>, i: nat)
    requires i < |args| && (args[i].None? || args[i] == Some(Null))
    ensures Tested(args)[i] == (if args[i].None? then "undefined" else "null")
    ensures Printed(args)[i] == ""
    ensures MatchUrl(Tested(args)[i]).None? && MatchBare(Tested(args)[i]).None?
  {
    var u := Tested(args)[i];
    assert NameEnd(u, 0) == |u|;
  }

  // ---------------------------------------------------------------------
  // The bare form, characterised

  lemma NameEndOfName(s: string, i: nat, n: string)
    requires i + |n| <= |s| && s[i..i + |n|] == n && IsName(n)
    requires i + |n| == |s| || !IsNameChar(s[i + |n|])
    ensures NameEnd(s, i) == i + |n|
  {
    var k := NameEnd(s, i);
    assert forall j :: i <= j < i + |n| ==> s[j] == n[j - i];
  }

  /** A bare-form match is exactly an owner and a name over the class,
      joined by `/`, with at most a `.git` suffix. */
  lemma MatchBareSound(s: string)
    requires MatchBare(s).Some?
    ensures var id := MatchBare(s).value;
      IsName(id.owner) && IsName(id.name)
      && (s == Show(id) || s == Show(id) + ".git")
  {
    var i := NameEnd(s, 0);
    var j := NameEnd(s, i + 1);
    assert s == s[..i] + "/" + s[i + 1..];
    if j < |s| {
      assert s[i + 1..] == s[i + 1..j] + s[j..];
    }
  }

  lemma MatchBareComplete(o: string, n: string, git: bool)
    requires IsName(o) && IsName(n)
    ensures MatchBare(o + "/" + n + (if git then ".git" else "")) == Some(RepoId(o, n))
  {
    var suffix := if git then ".git" else "";
    var s := o + "/" + n + suffix;
    assert s[..|o|] == o;
    NameEndOfName(s, 0, o);
    assert s[|o| + 1..|o| + 1 + |n|] == n;
    NameEndOfName(s, |o| + 1, n);
    assert s[..|o|] == o;
    assert s[|o| + 1..|o| + 1 + |n|] == n;
    assert s[|o| + 1 + |n|..] == suffix;
    if !git {
      assert s[|o| + 1..] == n;
    }
  }

  // ---------------------------------------------------------------------
  // The URL form, characterised

  /** A URL-form match captures an owner and a name over the class that
      follow the `github.com/` head, the name stopping at the first
      character outside the class (a `.git`, a `?query`, a further path). */
  lemma MatchUrlSound(s: string)
    requires MatchUrl(s).Some?
    ensures var id := MatchUrl(s).value;
      var end := 19 + |id.owner| + 1 + |id.name|;
      && HasUrlHead(s) && IsName(id.owner) && IsName(id.name)
      && end <= |s|
      && s[19..end] == id.owner + "/" + id.name
      && (end == |s| || !IsNameChar(s[end]))
  {
    var i := NameEnd(s, 19);
    var j := NameEnd(s, i + 1);
    assert s[19..j] == s[19..i] + "/" + s[i + 1..j];
  }

  lemma MatchUrlComplete(c: char, o: string, n: string, rest: string)
    requires !IsLineTerminator(c) && IsName(o) && IsName(n)
    requires rest == [] || !IsNameChar(rest[0])
    ensures MatchUrl(UrlScheme + [c] + UrlHost + o + "/" + n + rest) == Some(RepoId(o, n))
  {
    var s := UrlScheme + [c] + UrlHost + o + "/" + n + rest;
    assert s[..14] == UrlScheme;
    assert s[14] == c;
    assert s[15..19] == UrlHost;
    assert s[19..19 + |o|] == o;
    NameEndOfName(s, 19, o);
    var i := 19 + |o|;
    assert s[i] == '/';
    assert s[i + 1..i + 1 + |n|] == n;
    if rest != [] {
      assert s[i + 1 + |n|] == rest[0];
    }
    NameEndOfName(s, i + 1, n);
    assert s[19..i] == o;
    assert s[i + 1..i + 1 + |n|] == n;
  }

  // ---------------------------------------------------------------------
  // Extraction

  /** When some candidate has the URL form, the first such candidate
      decides, even if a bare candidate comes earlier. */
  lemma ExtractPrefersUrl(cs: seq<string>, i: nat)
    requires i < |cs| && MatchUrl(cs[i]).Some?
    requires forall j :: 0 <= j < i ==> MatchUrl(cs[j]).None?
    ensures Extract(cs) == Ok(Show(MatchUrl(cs[i]).value))
  {
  }

  /** Only when no candidate has the URL form does the first bare-form
      candidate decide. */
  lemma ExtractFallsBackToBare(cs: seq<string>, i: nat)
    requires forall j :: 0 <= j < |cs| ==> MatchUrl(cs[j]).None?
    requires i < |cs| && MatchBare(cs[i]).Some?
    requires forall j :: 0 <= j < i ==> MatchBare(cs[j]).None?
    ensures Extract(cs) == Ok(Show(MatchBare(cs[i]).value))
  {
  }

  /** Extraction fails exactly when no candidate matches either form. */
  lemma ExtractFailsIffNoMatch(cs: seq<string>)
    ensures Extract(cs).Err? <==>
      forall j :: 0 <= j < |cs| ==> MatchUrl(cs[j]).None? && MatchBare(cs[j]).None?
    ensures Extract(cs).Err? ==> Extract(cs).error == NoRepoMessage + Join(cs, ",")
  {
    var u, b := FirstMatch(cs, MatchUrl), FirstMatch(cs, MatchBare);
    assert Winner(cs).None? <==> u.None? && b.None?;
  }

  /** Every extracted identifier is `owner/name` with both parts over
      `[a-z0-0-]`: no upper case, no digit but 0. */
  lemma ExtractShape(cs: seq<string>)
    requires Extract(cs).Ok?
    ensures Winner(cs).Some?
    ensures var id := Winner(cs).value;
      IsName(id.owner) && IsName(id.name) && Extract(cs).value == Show(id)
  {
    match FirstMatch(cs, MatchUrl)
    case Some(i) =>
      MatchUrlSound(cs[i]);
    case None =>
      var i := FirstMatch(cs, MatchBare).value;
      MatchBareSound(cs[i]);
  }

  /** A single candidate: its URL form if it has one, else its bare form. */
  lemma ExtractSingle(s: string)
    ensures Winner([s]) == if MatchUrl(s).Some? then MatchUrl(s) else MatchBare(s)
  {
    assert [s][0] == s;
  }

  /** Idempotence: the extracted identifier, fed back as the only
      candidate, extracts to itself. */
  lemma ExtractIdempotent(cs: seq<string>)
    requires Extract(cs).Ok?
    ensures Extract([Extract(cs).value]) == Extract(cs)
  {
    ExtractShape(cs);
    var id := Winner(cs).value;
    var s := Show(id);
    ShowHasNoUrlHead(id);
    MatchBareComplete(id.owner, id.name, false);
    assert id.owner + "/" + id.name + "" == s;
    ExtractSingle(s);
  }

  /** A shown identifier never has the URL form: its sixth character would
      be the `:` of `https:`. */
  lemma ShowHasNoUrlHead(id: RepoId)
    requires IsName(id.owner) && IsName(id.name)
    ensures !HasUrlHead(Show(id))
  {
    var s := Show(id);
    NoColonInShow(id);
    UrlHeadColon(s);
  }

  lemma UrlHeadColon(s: string)
    ensures HasUrlHead(s) ==> s[5] == ':' && s[5] in s
  {
    if HasUrlHead(s) {
      assert s[..14][5] == ':';
    }
  }

  lemma NoColonInShow(id: RepoId)
    requires IsName(id.owner) && IsName(id.name)
    ensures ':' !in Show(id)
  {
    var s := Show(id);
    forall k | 0 <= k < |s| ensures s[k] != ':' {
      if k < |id.owner| {
        assert s[k] == id.owner[k];
      } else if k > |id.owner| {
        assert s[k] == id.name[k - |id.owner| - 1];
      }
    }
  }

  /** The cases listed in the repository's own tests: a bare identifier,
      and URLs with and without `.git` and a query. */
  lemma ExtractExamples(bare: string, url: string, urlGit: string, urlQuery: string)
    requires bare == "test/abc"
    requires url == "https://github.com/test/abc"
    requires urlGit == "https://github.com/test/abc.git"
    requires urlQuery == "https://github.com/test/abc.git?test"
    ensures Extract([bare]) == Ok("test/abc")
    ensures Extract([url]) == Ok("test/abc")
    ensures Extract([urlGit]) == Ok("test/abc")
    ensures Extract([urlQuery]) == Ok("test/abc")
  {
    BarePieces(bare);
    UrlPieces(url, "abc", "");
    UrlPieces(urlGit, "abc", ".git");
    UrlPieces(urlQuery, "abc", ".git?test");
    MatchBareComplete("test", "abc", false);
    MatchUrlComplete('.', "test", "abc", "");
    MatchUrlComplete('.', "test", "abc", ".git");
    MatchUrlComplete('.', "test", "abc", ".git?test");
    assert !HasUrlHead(bare);
    assert Extract([bare]) == Ok("test/abc") by {
      assert FirstMatch([bare], MatchUrl) == None;
    }
  }

  /** From the same tests: a URL argument wins over an earlier bare one. */
  lemma ExtractPrecedenceExamples(owner: string, name: string, bare: string, url: string)
    requires owner == "test" && name == "abc"
    requires bare == "test/abc"
    requires url == "https://github.com/test/xyz"
    ensures Extract([owner, name, bare, url]) == Ok("test/xyz")
    ensures Extract([owner, name, url, bare]) == Ok("test/xyz")
  {
    PrecedenceMatches(owner, name, bare, url);
    XyzShown();
    UrlWinsEitherOrder(owner, name, bare, url);
  }

  lemma UrlWinsEitherOrder(a: string, b: string, c: string, d: string)
    requires MatchUrl(a).None? && MatchUrl(b).None? && MatchUrl(c).None?
    requires MatchUrl(d).Some?
    ensures Extract([a, b, c, d]) == Ok(Show(MatchUrl(d).value))
    ensures Extract([a, b, d, c]) == Ok(Show(MatchUrl(d).value))
  {
    var cs := [a, b, c, d];
    assert cs[0] == a && cs[1] == b && cs[2] == c && cs[3] == d;
    ExtractPrefersUrl(cs, 3);
    var ds := [a, b, d, c];
    assert ds[0] == a && ds[1] == b && ds[2] == d;
    ExtractPrefersUrl(ds, 2);
  }

  lemma PrecedenceMatches(owner: string, name: string, bare: string, url: string)
    requires owner == "test" && name == "abc"
    requires bare == "test/abc"
    requires url == "https://github.com/test/xyz"
    ensures MatchUrl(owner).None? && MatchUrl(name).None? && MatchUrl(bare).None?
    ensures MatchUrl(url) == Some(RepoId("test", "xyz"))
  {
    UrlPieces(url, "xyz", "");
    MatchUrlComplete('.', "test", "xyz", "");
    assert !HasUrlHead(bare) && !HasUrlHead(owner) && !HasUrlHead(name);
  }

  lemma BarePieces(bare: string)
    requires bare == "test/abc"
    ensures bare == "test" + "/" + "abc" + ""
    ensures Show(RepoId("test", "abc")) == "test/abc"
  {
  }

  lemma XyzShown()
    ensures Show(RepoId("test", "xyz")) == "test/xyz"
  {
  }

  lemma UrlPieces(url: string, name: string, tail: string)
    requires url == "https://github.com/test/" + name + tail
    ensures url == UrlScheme + ['.'] + UrlHost + "test" + "/" + name + tail
  {
  }
}
