/** The filter-pattern builders of lib/filters.js: free-form, white-space
    separated domain and brand lists become regular-expression source
    text in which every caller-supplied character is taken literally.

    The token list is stringified the way a JavaScript array is inside a
    template literal, which joins the elements with `,` rather than
    alternating them with `|`; the model keeps that. */
module Filters {
  import opened Base
  import opened JsText

  /** The characters `[.*+?^${}()|[\]\\]` matches. */
  predicate IsMeta(c: char) {
    || c == '.' || c == '*' || c == '+' || c == '?' || c == '^' || c == '$' || c == '{'
    || c == '}' || c == '(' || c == ')' || c == '|' || c == '[' || c == ']' || c == '\\'
  }

  /** A pattern source that matches one literal string: every backslash
      escapes a metacharacter and no metacharacter stands unescaped. */
  predicate IsLiteral(e: string)
    decreases |e|
  {
    if |e| == 0 then true
    else if e[0] == '\\' then |e| >= 2 && IsMeta(e[1]) && IsLiteral(e[2..])
    else !IsMeta(e[0]) && IsLiteral(e[1..])
  }

  /** Reads a pattern source back: every escaping backslash is dropped. */
  function Unescape(e: string): string
    decreases |e|
  {
    if |e| == 0 then []
    else if e[0] == '\\' && |e| >= 2 then [e[1]] + Unescape(e[2..])
    else [e[0]] + Unescape(e[1..])
  }

  /** `token.replace(/[.*+?^${}()|[\]\\]/g, '\\$&')`: a backslash before
      every metacharacter. */
  function Escape(t: string): string
    decreases |t|
  {
    if |t| == 0 then []
    else (if IsMeta(t[0]) then ['\\', t[0]] else [t[0]]) + Escape(t[1..])
  }

  /** The escaped token is a literal pattern, and dropping its escaping
      backslashes gives the token back. */
  lemma {:induction false} EscapeRoundTrip(t: string)
    ensures IsLiteral(Escape(t))
    ensures Unescape(Escape(t)) == t
    decreases |t|
  {
    if |t| > 0 {
      EscapeRoundTrip(t[1..]);
      var rest := Escape(t[1..]);
      var head := if IsMeta(t[0]) then ['\\', t[0]] else [t[0]];
      assert (head + rest)[|head|..] == rest;
    }
  }

  function EscapeAll(ts: seq<string>): (es: seq<string>)
    ensures |es| == |ts|
    ensures forall k :: 0 <= k < |ts| ==> es[k] == Escape(ts[k])
    decreases |ts|
  {
    if |ts| == 0 then [] else [Escape(ts[0])] + EscapeAll(ts[1..])
  }

  /** `getTokens(input)` */
  function Tokens(input: string): (ts: seq<string>)
    ensures ts == EscapeAll(Words(input))
  {
    SplitRunsWords(Trim(input));
    WordsTrim(input);
    EscapeAll(NonEmpty(SplitRuns(Trim(input))))
  }

  /** `getOptions(input)`: the escaped tokens inside one pair of
      parentheses, separated by commas. */
  function Options(input: string): string {
    Paren(Join(Tokens(input), ","))
  }

  /** `(${x})` */
  function Paren(x: string): string {
    "(" + x + ")"
  }

  /** `domains ? domains.trim() : ''` for an option that may be absent. */
  function Given(v: Option<string>): string {
    if v.Some? then Trim(v.value) else ""
  }

  /** The raw option text, absent counting as empty. */
  function Raw(v: Option<string>): string {
    if v.Some? then v.value else ""
  }

  /** `parts.map(part => `(${part})`).join('|')`, or `undefined` for no parts. */
  function Alternate(parts: seq<string>): Option<string> {
    if |parts| == 0 then None
    else Some(Join(Wrapped(parts), "|"))
  }

  function Wrapped(parts: seq<string>): (ws: seq<string>)
    ensures |ws| == |parts|
    ensures forall k :: 0 <= k < |parts| ==> ws[k] == Paren(parts[k])
    decreases |parts|
  {
    if |parts| == 0 then [] else [Paren(parts[0])] + Wrapped(parts[1..])
  }

  /** The argument object `{ domains, brands }` of a builder. */
  datatype FilterInput = FilterInput(domains: Option<string>, brands: Option<string>)

  const DomainPrefix := "(^|\\s|\\.|@)"
  const Boundary := "(\\s|$)"
  const BioBrandPrefix := "(@\\s?|(^|\\s)at\\s|ex-)"

  /** What a builder's `domains` or `brands` variable holds once it has
      been trimmed and, when the trimmed text is truthy, replaced by its
      option group; `None` stands for the falsy empty string. */
  function Group(v: Option<string>): (g: Option<string>)
    ensures g.Some? <==> Given(v) != ""
    ensures g.Some? ==> g.value == Options(Given(v))
  {
    var t := Given(v);
    if t != "" then Some(Options(t)) else None
  }

  function DomainPart(group: string): string {
    DomainPrefix + group + Boundary
  }

  function EmailPart(group: string): string {
    "@" + group + "$"
  }

  /** The company part matching a company field that is exactly a brand. */
  function ExactPart(group: string): string {
    "^\\s*" + group + "\\s*$"
  }

  /** The company part matching an `@brand` mention. */
  function MentionPart(group: string): string {
    "(@\\s?)" + group + Boundary
  }

  function BioBrandPart(group: string): string {
    BioBrandPrefix + group + Boundary
  }

  /** The parts `createEmailFilter` pushes, given its `domains` group. */
  function EmailParts(domains: Option<string>): seq<string> {
    if domains.Some? then [EmailPart(domains.value)] else []
  }

  /** The parts `createCompanyFilter` pushes, given its two groups. */
  function CompanyParts(domains: Option<string>, brands: Option<string>): seq<string> {
    (if domains.Some? then [DomainPart(domains.value)] else [])
    + (if brands.Some? then [ExactPart(brands.value), MentionPart(brands.value)] else [])
  }

  /** The parts `createBioFilter` pushes, given its two groups. */
  function BioParts(domains: Option<string>, brands: Option<string>): seq<string> {
    (if domains.Some? then [DomainPart(domains.value)] else [])
    + (if brands.Some? then [BioBrandPart(brands.value)] else [])
  }

  /** `createEmailFilter` */
  function EmailFilter(f: FilterInput): Option<string> {
    Alternate(EmailParts(Group(f.domains)))
  }

  /** `createCompanyFilter` */
  function CompanyFilter(f: FilterInput): Option<string> {
    Alternate(CompanyParts(Group(f.domains), Group(f.brands)))
  }

  /** `createBioFilter` */
  function BioFilter(f: FilterInput): Option<string> {
    Alternate(BioParts(Group(f.domains), Group(f.brands)))
  }

  /** An option is blank when it is absent or holds only white space. */
  predicate Blank(v: Option<string>) {
    AllSpace(Raw(v))
  }

  lemma GivenEmptyIffBlank(v: Option<string>)
    ensures Given(v) == "" <==> Blank(v)
  {
    if v.Some? {
      TrimEmptyIffBlank(v.value);
    }
  }

  // ---------------------------------------------------------------------
  // Tokens and options

  /** Escaping adds only backslashes: every character of the escaped
      token is a backslash or a character of the token. */
  lemma {:induction false} EscapeAddsOnlyBackslashes(t: string)
    ensures forall i :: 0 <= i < |Escape(t)| ==> Escape(t)[i] == '\\' || Escape(t)[i] in t
    decreases |t|
  {
    if |t| > 0 {
      EscapeAddsOnlyBackslashes(t[1..]);
      var head := if IsMeta(t[0]) then ['\\', t[0]] else [t[0]];
      assert Escape(t) == head + Escape(t[1..]);
      forall i | 0 <= i < |Escape(t)| ensures Escape(t)[i] == '\\' || Escape(t)[i] in t {
        if i >= |head| {
          assert Escape(t)[i] == Escape(t[1..])[i - |head|];
        }
      }
    }
  }

  lemma EscapeNonEmptyNoSpace(t: string)
    requires t != [] && NoSpace(t)
    ensures Escape(t) != [] && NoSpace(Escape(t))
  {
    EscapeAddsOnlyBackslashes(t);
    if IsMeta(t[0]) {
      assert Escape(t)[0] == '\\';
    } else {
      assert Escape(t)[0] == t[0];
    }
  }

  /** Every token is non-empty, free of white space and a literal pattern;
      dropping the escapes gives back the words of the input in order. */
  lemma TokensAreEscapedWords(input: string)
    ensures |Tokens(input)| == |Words(input)|
    ensures forall k :: 0 <= k < |Tokens(input)| ==>
      && Tokens(input)[k] != []
      && NoSpace(Tokens(input)[k])
      && IsLiteral(Tokens(input)[k])
      && Unescape(Tokens(input)[k]) == Words(input)[k]
  {
    var ws := Words(input);
    var ts := Tokens(input);
    forall k | 0 <= k < |ts|
      ensures ts[k] != [] && NoSpace(ts[k])
      ensures IsLiteral(ts[k]) && Unescape(ts[k]) == ws[k]
    {
      EscapeNonEmptyNoSpace(ws[k]);
      EscapeRoundTrip(ws[k]);
    }
  }

  /** `(` + comma-split + `)` read back into unescaped tokens: the inverse
      of `Options` for inputs without commas. */
  function DecodeOptions(p: string): seq<string> {
    if |p| < 2 || p[0] != '(' || p[|p| - 1] != ')' then []
    else
      var body := p[1..|p| - 1];
      if body == "" then [] else UnescapeAll(SplitOn(body, ','))
  }

  function UnescapeAll(es: seq<string>): (ts: seq<string>)
    ensures |ts| == |es|
    ensures forall k :: 0 <= k < |es| ==> ts[k] == Unescape(es[k])
    decreases |es|
  {
    if |es| == 0 then [] else [Unescape(es[0])] + UnescapeAll(es[1..])
  }

  /** `s.split(c)` for a one-character separator. */
  function SplitOn(s: string, c: char): (parts: seq<string>)
    ensures |parts| >= 1
    decreases |s|
  {
    var i := IndexFrom(s, c, 0);
    if i == |s| then [s] else [s[..i]] + SplitOn(s[i + 1..], c)
  }

  lemma {:induction false} SplitOnJoin(ts: seq<string>, c: char)
    requires |ts| >= 1
    requires forall k :: 0 <= k < |ts| ==> c !in ts[k]
    ensures SplitOn(Join(ts, [c]), c) == ts
    decreases |ts|
  {
    var t := ts[0];
    if |ts| == 1 {
      SeparatorNotIn(t, c, 0);
      assert t[..|t|] == t;
    } else {
      var rest := Join(ts[1..], [c]);
      var s := t + [c] + rest;
      assert Join(ts, [c]) == s;
      SeparatorAfter(t, c, rest);
      assert s[..|t|] == t;
      assert s[|t| + 1..] == rest;
      SplitOnJoin(ts[1..], c);
      assert SplitOn(s, c) == [t] + SplitOn(rest, c);
      assert ts == [t] + ts[1..];
    }
  }

  lemma {:induction false} SeparatorNotIn(t: string, c: char, i: nat)
    requires i <= |t| && c !in t
    ensures IndexFrom(t, c, i) == |t|
    decreases |t| - i
  {
    if i < |t| {
      assert t[i] in t;
      SeparatorNotIn(t, c, i + 1);
    }
  }

  lemma SeparatorAfter(t: string, c: char, rest: string)
    requires c !in t
    ensures IndexFrom(t + [c] + rest, c, 0) == |t|
  {
    var s := t + [c] + rest;
    var k := IndexFrom(s, c, 0);
    assert s[|t|] == c;
    assert forall j :: 0 <= j < |t| ==> s[j] == t[j];
  }

  /** Round trip: an input whose words hold no comma can be read back
      from its option group, so escaping loses nothing. */
  lemma DecodeOptionsInverse(input: string)
    requires ',' !in input
    ensures DecodeOptions(Options(input)) == Words(input)
  {
    var ws := Words(input);
    var ts := Tokens(input);
    TokensAreEscapedWords(input);
    forall k | 0 <= k < |ts| ensures ',' !in ts[k] {
      WordHasNoComma(input, k);
      EscapeAddsOnlyBackslashes(ws[k]);
    }
    DecodeParen(Join(ts, ","));
    DecodeJoined(ts, ws);
  }

  lemma DecodeParen(body: string)
    ensures DecodeOptions(Paren(body)) == (if body == "" then [] else UnescapeAll(SplitOn(body, ',')))
  {
    var p := Paren(body);
    assert p[1..|p| - 1] == body;
  }

  /** Comma-free tokens joined with commas split back apart, and each
      unescapes to its word. */
  lemma DecodeJoined(ts: seq<string>, ws: seq<string>)
    requires |ts| == |ws|
    requires forall k :: 0 <= k < |ts| ==> ts[k] != [] && ',' !in ts[k] && Unescape(ts[k]) == ws[k]
    ensures (if Join(ts, ",") == "" then [] else UnescapeAll(SplitOn(Join(ts, ","), ','))) == ws
  {
    if |ts| > 0 {
      assert Join(ts, ",") != "" by {
        JoinStartsWithFirst(ts, ",");
      }
      SplitOnJoin(ts, ',');
    }
  }

  lemma JoinStartsWithFirst(ts: seq<string>, sep: string)
    requires |ts| >= 1
    ensures |Join(ts, sep)| >= |ts[0]|
  {
  }

  lemma {:induction false} ConcatMember(xss: seq<string>, k: nat, c: char)
    requires k < |xss|
    requires c in xss[k]
    ensures c in Concat(xss)
    decreases |xss|
  {
    if k > 0 {
      ConcatMember(xss[1..], k - 1, c);
    }
  }

  lemma {:induction false} RemoveSpaceMember(s: string, c: char)
    requires c in RemoveSpace(s)
    ensures c in s
    decreases |s|
  {
    if |s| > 0 && c != s[0] {
      RemoveSpaceMember(s[1..], c);
    }
  }

  lemma WordHasNoComma(input: string, k: nat)
    requires ',' !in input
    requires k < |Words(input)|
    ensures ',' !in Words(input)[k]
  {
    WordsConcat(input);
    if ',' in Words(input)[k] {
      ConcatMember(Words(input), k, ',');
      RemoveSpaceMember(input, ',');
    }
  }

  /** Characters the metacharacter escape leaves alone. */
  predicate Plain(t: string) {
    forall i :: 0 <= i < |t| ==> !IsMeta(t[i])
  }

  /** The array-stringification quirk: two tokens are joined with a comma,
      not alternated, so the space-separated list `x y` and the single
      token `x,y` give the same option group. */
  lemma OptionsJoinWithComma(x: string, y: string)
    requires x != [] && NoSpace(x) && Plain(x)
    requires y != [] && NoSpace(y) && Plain(y)
    ensures Options(x + " " + y) == Paren(x + "," + y)
    ensures Options(x + "," + y) == Paren(x + "," + y)
  {
    OptionsOfTwoWords(x, y);
    OptionsOfCommaWord(x, y);
  }

  lemma OptionsOfTwoWords(x: string, y: string)
    requires x != [] && NoSpace(x) && Plain(x)
    requires y != [] && NoSpace(y) && Plain(y)
    ensures Options(x + " " + y) == Paren(x + "," + y)
  {
    TokensOfTwoWords(x, y);
    JoinTwo(x, y, ",");
  }

  lemma OptionsOfCommaWord(x: string, y: string)
    requires NoSpace(x) && Plain(x)
    requires NoSpace(y) && Plain(y)
    ensures Options(x + "," + y) == Paren(x + "," + y)
  {
    var z := x + "," + y;
    CommaJoinedWord(x, y);
    OptionsOfWord(z);
    EscapePlain(z);
  }

  lemma CommaJoinedWord(x: string, y: string)
    requires NoSpace(x) && Plain(x)
    requires NoSpace(y) && Plain(y)
    ensures NoSpace(x + "," + y) && Plain(x + "," + y)
  {
    var z := x + "," + y;
    forall i | 0 <= i < |z| ensures !IsSpace(z[i]) && !IsMeta(z[i]) {
      if i < |x| {
        assert z[i] == x[i];
      } else if i > |x| {
        assert z[i] == y[i - |x| - 1];
      }
    }
  }

  lemma JoinTwo(x: string, y: string, sep: string)
    ensures Join([x, y], sep) == x + sep + y
  {
    assert [x, y][1..] == [y];
  }

  lemma TokensOfTwoWords(x: string, y: string)
    requires x != [] && NoSpace(x) && Plain(x)
    requires y != [] && NoSpace(y) && Plain(y)
    ensures Tokens(x + " " + y) == [x, y]
  {
    JoinTwo(x, y, " ");
    WordsOfJoin([x, y]);
    EscapePlain(x);
    EscapePlain(y);
    var ws := Words(x + " " + y);
    assert ws == [x, y];
    assert EscapeAll(ws) == [Escape(x), Escape(y)];
  }

  // ---------------------------------------------------------------------
  // The three builders

  /** The e-mail filter exists exactly when a non-blank domain list is
      given; brands are never read. */
  lemma EmailFilterNoneIffBlank(f: FilterInput)
    ensures EmailFilter(f).None? <==> Blank(f.domains)
    ensures EmailFilter(f) == EmailFilter(FilterInput(f.domains, None))
    ensures EmailFilter(FilterInput(None, f.brands)) == None
  {
    GivenEmptyIffBlank(f.domains);
  }

  /** Which of the three builders produce a pattern: e-mail for a non-blank
      domain list only, company and bio for either list non-blank. */
  lemma FiltersPresent(f: FilterInput)
    ensures EmailFilter(f).None? <==> Blank(f.domains)
    ensures CompanyFilter(f).None? <==> Blank(f.domains) && Blank(f.brands)
    ensures BioFilter(f).None? <==> Blank(f.domains) && Blank(f.brands)
  {
    GivenEmptyIffBlank(f.domains);
    GivenEmptyIffBlank(f.brands);
  }

  /** The company filter exists exactly when one of the lists is non-blank;
      then it has one domain part (first) and two brand parts. */
  lemma CompanyFilterShape(f: FilterInput)
    ensures CompanyFilter(f).None? <==> Blank(f.domains) && Blank(f.brands)
    ensures var parts := CompanyParts(Group(f.domains), Group(f.brands));
      && |parts| == (if Blank(f.domains) then 0 else 1) + (if Blank(f.brands) then 0 else 2)
      && (!Blank(f.domains) ==> parts[0] == DomainPart(Options(Given(f.domains))))
      && (!Blank(f.brands) ==>
            parts[|parts| - 2..] == [ExactPart(Options(Given(f.brands))), MentionPart(Options(Given(f.brands)))])
  {
    GivenEmptyIffBlank(f.domains);
    GivenEmptyIffBlank(f.brands);
  }

  /** The bio filter exists exactly when one of the lists is non-blank;
      then it has the domain part first and one brand part after it. */
  lemma BioFilterShape(f: FilterInput)
    ensures BioFilter(f).None? <==> Blank(f.domains) && Blank(f.brands)
    ensures var parts := BioParts(Group(f.domains), Group(f.brands));
      && |parts| == (if Blank(f.domains) then 0 else 1) + (if Blank(f.brands) then 0 else 1)
      && (!Blank(f.domains) ==> parts[0] == DomainPart(Options(Given(f.domains))))
      && (!Blank(f.brands) ==> parts[|parts| - 1] == BioBrandPart(Options(Given(f.brands))))
  {
    GivenEmptyIffBlank(f.domains);
    GivenEmptyIffBlank(f.brands);
  }

  /** A builder sees its lists only through their words: inputs whose
      lists split into the same words give the same filters. */
  lemma BuildersDependOnlyOnWords(f: FilterInput, g: FilterInput)
    requires Words(Raw(f.domains)) == Words(Raw(g.domains))
    requires Words(Raw(f.brands)) == Words(Raw(g.brands))
    ensures EmailFilter(f) == EmailFilter(g)
    ensures CompanyFilter(f) == CompanyFilter(g)
    ensures BioFilter(f) == BioFilter(g)
  {
    SameWordsSameGroup(f.domains, g.domains);
    SameWordsSameGroup(f.brands, g.brands);
  }

  lemma SameWordsSameGroup(v: Option<string>, w: Option<string>)
    requires Words(Raw(v)) == Words(Raw(w))
    ensures Group(v) == Group(w)
  {
    SameWordsSameGiven(v, w);
  }

  lemma SameWordsSameGiven(v: Option<string>, w: Option<string>)
    requires Words(Raw(v)) == Words(Raw(w))
    ensures Given(v) == "" <==> Given(w) == ""
    ensures Options(Given(v)) == Options(Given(w))
  {
    GivenEmptyIffBlank(v);
    GivenEmptyIffBlank(w);
    NoWordsIffBlank(Raw(v));
    NoWordsIffBlank(Raw(w));
    WordsTrim(Raw(v));
    WordsTrim(Raw(w));
    assert Words(Given(v)) == Words(Raw(v)) by {
      if v.None? { assert Given(v) == Raw(v); }
    }
    assert Words(Given(w)) == Words(Raw(w)) by {
      if w.None? { assert Given(w) == Raw(w); }
    }
  }

  /** Leading and trailing white space on either list never changes any
      builder's result. */
  lemma BuildersIgnorePadding(d: string, b: string, w1: string, w2: string, w3: string, w4: string)
    requires AllSpace(w1) && AllSpace(w2) && AllSpace(w3) && AllSpace(w4)
    ensures var f := FilterInput(Some(w1 + d + w2), Some(w3 + b + w4));
            var g := FilterInput(Some(d), Some(b));
            EmailFilter(f) == EmailFilter(g) && CompanyFilter(f) == CompanyFilter(g) && BioFilter(f) == BioFilter(g)
  {
    WordsPadding(w1, d, w2);
    WordsPadding(w3, b, w4);
    BuildersDependOnlyOnWords(FilterInput(Some(w1 + d + w2), Some(w3 + b + w4)), FilterInput(Some(d), Some(b)));
  }

  lemma {:induction false} EscapeAppend(a: string, b: string)
    ensures Escape(a + b) == Escape(a) + Escape(b)
    decreases |a|
  {
    if |a| == 0 {
      assert a + b == b;
    } else {
      assert (a + b)[0] == a[0];
      assert (a + b)[1..] == a[1..] + b;
      EscapeAppend(a[1..], b);
    }
  }

  /** A single word trims to itself and is its own only word. */
  lemma SingleWord(t: string)
    requires t != [] && NoSpace(t)
    ensures Trim(t) == t
    ensures Words(t) == [t]
  {
    assert TrimStart(t) == t;
    assert TrimEnd(t) == t;
    assert t == Join([t], " ");
    WordsOfJoin([t]);
  }

  /** Escaping a dotted name escapes exactly its dot. */
  lemma EscapeDotted(a: string, c: string)
    requires forall i :: 0 <= i < |a| ==> !IsMeta(a[i])
    requires forall i :: 0 <= i < |c| ==> !IsMeta(c[i])
    ensures Escape(a + "." + c) == a + "\\." + c
  {
    EscapeAppend(a + ".", c);
    EscapeAppend(a, ".");
    EscapeMeta('.');
    EscapePlain(a);
    EscapePlain(c);
  }

  /** Escaping `bage.com` escapes its one dot. */
  lemma EscapeExample(d: string)
    requires d == "bage.com"
    ensures Escape(d) == "bage\\.com"
  {
    var a, c := d[..4], d[5..];
    BageComPieces(d, a, c);
    EscapeDotted(a, c);
  }

  lemma BageComPieces(d: string, a: string, c: string)
    requires d == "bage.com" && a == d[..4] && c == d[5..]
    ensures d == a + "." + c
    ensures a + "\\." + c == "bage\\.com"
    ensures forall i :: 0 <= i < |a| ==> !IsMeta(a[i])
    ensures forall i :: 0 <= i < |c| ==> !IsMeta(c[i])
  {
  }

  lemma EscapeMeta(c: char)
    requires IsMeta(c)
    ensures Escape([c]) == ['\\', c]
  {
    assert [c][1..] == [];
  }

  /** A token without metacharacters is left as it is. */
  lemma {:induction false} EscapePlain(t: string)
    requires Plain(t)
    ensures Escape(t) == t
    decreases |t|
  {
    if |t| > 0 {
      EscapePlain(t[1..]);
    }
  }

  /** The option group of a single word is that word, escaped, in parentheses. */
  lemma OptionsOfWord(t: string)
    requires t != [] && NoSpace(t)
    ensures Options(t) == Paren(Escape(t))
  {
    SingleWord(t);
    assert Tokens(t) == [Escape(t)];
  }

  /** A single word is given as itself, so its group is its option group. */
  lemma GroupOfWord(t: string)
    requires t != [] && NoSpace(t)
    ensures Group(Some(t)) == Some(Paren(Escape(t)))
  {
    SingleWord(t);
    OptionsOfWord(t);
  }

  /** The words of the examples below. */
  lemma ExampleWords(d: string, b: string)
    requires d == "bage.com" && b == "bage"
    ensures d != [] && NoSpace(d)
    ensures b != [] && NoSpace(b) && Plain(b)
  {
  }

  /** The e-mail filter for one domain word. */
  lemma EmailFilterOfWord(d: string)
    requires d != [] && NoSpace(d)
    ensures EmailFilter(FilterInput(Some(d), None)) == Some(Paren(EmailPart(Paren(Escape(d)))))
  {
    GroupOfWord(d);
    var p := EmailPart(Paren(Escape(d)));
    assert EmailParts(Some(Paren(Escape(d)))) == [p];
    assert Wrapped([p]) == [Paren(p)];
  }

  /** The e-mail filter for the domain `bage.com`. */
  lemma EmailFilterExample(d: string)
    requires d == "bage.com"
    ensures EmailFilter(FilterInput(Some(d), None)) == Some("(@(bage\\.com)$)")
  {
    ExampleWords(d, "bage");
    EmailFilterOfWord(d);
    EscapeExample(d);
    EmailLiteral(Escape(d));
  }

  lemma EmailLiteral(e: string)
    requires e == "bage\\.com"
    ensures Paren(EmailPart(Paren(e))) == "(@(bage\\.com)$)"
  {
  }

  /** The company filter for one domain word and one brand word: the
      domain part, the exact-name part and the mention part, each wrapped,
      joined with `|`. */
  lemma CompanyFilterOfWords(d: string, b: string)
    requires d != [] && NoSpace(d) && b != [] && NoSpace(b)
    ensures var od, ob := Paren(Escape(d)), Paren(Escape(b));
      CompanyFilter(FilterInput(Some(d), Some(b)))
        == Some(Paren(DomainPart(od)) + "|" + (Paren(ExactPart(ob)) + "|" + Paren(MentionPart(ob))))
  {
    GroupOfWord(d);
    GroupOfWord(b);
    CompanyAlternation(Paren(Escape(d)), Paren(Escape(b)));
  }

  /** The company filter for domain `bage.com` and brand `bage`. */
  lemma CompanyFilterExample(d: string, b: string)
    requires d == "bage.com" && b == "bage"
    ensures CompanyFilter(FilterInput(Some(d), Some(b)))
      == Some("((^|\\s|\\.|@)(bage\\.com)(\\s|$))" + "|" + "(^\\s*(bage)\\s*$)" + "|" + "((@\\s?)(bage)(\\s|$))")
  {
    ExampleWords(d, b);
    CompanyFilterOfWords(d, b);
    var od, ob := Paren(Escape(d)), Paren(Escape(b));
    var w0, w1, w2 := Paren(DomainPart(od)), Paren(ExactPart(ob)), Paren(MentionPart(ob));
    CompanyExampleParts(d, b, w0, w1, w2);
    AlternativesOfThree(w0, w1, w2,
      "((^|\\s|\\.|@)(bage\\.com)(\\s|$))",
      "(^\\s*(bage)\\s*$)",
      "((@\\s?)(bage)(\\s|$))");
  }

  lemma AlternativesOfThree(w0: string, w1: string, w2: string, x0: string, x1: string, x2: string)
    requires w0 == x0 && w1 == x1 && w2 == x2
    ensures w0 + "|" + (w1 + "|" + w2) == x0 + "|" + x1 + "|" + x2
  {
  }

  lemma CompanyExampleParts(d: string, b: string, w0: string, w1: string, w2: string)
    requires d == "bage.com" && b == "bage"
    requires w0 == Paren(DomainPart(Paren(Escape(d))))
    requires w1 == Paren(ExactPart(Paren(Escape(b))))
    requires w2 == Paren(MentionPart(Paren(Escape(b))))
    ensures w0 == "((^|\\s|\\.|@)(bage\\.com)(\\s|$))"
    ensures w1 == "(^\\s*(bage)\\s*$)"
    ensures w2 == "((@\\s?)(bage)(\\s|$))"
  {
    ExampleWords(d, b);
    EscapeExample(d);
    EscapePlain(b);
    CompanyDomainLiteral(Escape(d), w0);
    CompanyExactLiteral(Escape(b), w1);
    CompanyMentionLiteral(Escape(b), w2);
  }

  /** The company parts for two known groups, wrapped and joined. */
  lemma CompanyAlternation(od: string, ob: string)
    ensures Alternate(CompanyParts(Some(od), Some(ob)))
      == Some(Paren(DomainPart(od)) + "|" + (Paren(ExactPart(ob)) + "|" + Paren(MentionPart(ob))))
  {
    var p0, p1, p2 := DomainPart(od), ExactPart(ob), MentionPart(ob);
    assert CompanyParts(Some(od), Some(ob)) == [p0] + [p1, p2];
    assert [p0] + [p1, p2] == [p0, p1, p2];
    AlternateThree(p0, p1, p2);
  }

  lemma AlternateThree(p0: string, p1: string, p2: string)
    ensures Alternate([p0, p1, p2]) == Some(Paren(p0) + "|" + (Paren(p1) + "|" + Paren(p2)))
  {
    var ps := [p0, p1, p2];
    var ws := Wrapped(ps);
    assert ps[0] == p0 && ps[1] == p1 && ps[2] == p2;
    assert ws == [Paren(p0), Paren(p1), Paren(p2)];
    JoinThree(Paren(p0), Paren(p1), Paren(p2), "|");
  }

  lemma JoinThree(a: string, b: string, c: string, sep: string)
    ensures Join([a, b, c], sep) == a + sep + (b + sep + c)
  {
    assert [a, b, c][1..] == [b, c];
    assert [b, c][1..] == [c];
    assert Join([c], sep) == c;
    assert Join([b, c], sep) == b + sep + c;
  }

  lemma CompanyDomainLiteral(e: string, w0: string)
    requires e == "bage\\.com"
    requires w0 == Paren(DomainPart(Paren(e)))
    ensures w0 == "((^|\\s|\\.|@)(bage\\.com)(\\s|$))"
  {
  }

  lemma CompanyExactLiteral(e: string, w1: string)
    requires e == "bage"
    requires w1 == Paren(ExactPart(Paren(e)))
    ensures w1 == "(^\\s*(bage)\\s*$)"
  {
  }

  lemma CompanyMentionLiteral(e: string, w2: string)
    requires e == "bage"
    requires w2 == Paren(MentionPart(Paren(e)))
    ensures w2 == "((@\\s?)(bage)(\\s|$))"
  {
  }

}
