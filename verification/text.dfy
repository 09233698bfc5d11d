/** JavaScript string primitives the filter builders rely on:
    white space as `\s` and `String.prototype.trim` see it, `trim()`,
    and `split(/\s+/)`; plus `Words`, an independent definition of
    "the white-space separated tokens of a string" that the split is
    proved against. */
module JsText {
  import opened Base

  /** The characters of ECMAScript's WhiteSpace and LineTerminator
      productions, which is both the `\s` class and what `trim` removes. */
  predicate IsSpace(c: char) {
    || c == '\t' || c == '\n' || c == '\U{000B}' || c == '\U{000C}' || c == '\r' || c == ' '
    || c == '\U{00A0}' || c == '\U{1680}' || ('\U{2000}' <= c <= '\U{200A}')
    || c == '\U{2028}' || c == '\U{2029}' || c == '\U{202F}' || c == '\U{205F}'
    || c == '\U{3000}' || c == '\U{FEFF}'
  }

  predicate AllSpace(s: string) {
    forall i :: 0 <= i < |s| ==> IsSpace(s[i])
  }

  predicate NoSpace(s: string) {
    forall i :: 0 <= i < |s| ==> !IsSpace(s[i])
  }

  /** Drops the leading white space. */
  function TrimStart(s: string): (r: string)
    ensures |r| <= |s| && r == s[|s| - |r|..]
    ensures forall i :: 0 <= i < |s| - |r| ==> IsSpace(s[i])
    ensures r == [] || !IsSpace(r[0])
    decreases |s|
  {
    if |s| > 0 && IsSpace(s[0]) then TrimStart(s[1..]) else s
  }

  /** Drops the trailing white space. */
  function TrimEnd(s: string): (r: string)
    ensures |r| <= |s| && r == s[..|r|]
    ensures forall i :: |r| <= i < |s| ==> IsSpace(s[i])
    ensures r == [] || !IsSpace(r[|r| - 1])
    decreases |s|
  {
    if |s| > 0 && IsSpace(s[|s| - 1]) then TrimEnd(s[..|s| - 1]) else s
  }

  /** `s.trim()` */
  function Trim(s: string): (r: string)
    ensures r == [] || (!IsSpace(r[0]) && !IsSpace(r[|r| - 1]))
  {
    TrimEnd(TrimStart(s))
  }

  /** The first index at or after `i` holding white space, or `|s|`. */
  function SpaceFrom(s: string, i: nat): (k: nat)
    requires i <= |s|
    ensures i <= k <= |s|
    ensures forall j :: i <= j < k ==> !IsSpace(s[j])
    ensures k < |s| ==> IsSpace(s[k])
    decreases |s| - i
  {
    if i == |s| || IsSpace(s[i]) then i else SpaceFrom(s, i + 1)
  }

  /** The first index at or after `i` holding a non-space character, or `|s|`. */
  function TextFrom(s: string, i: nat): (k: nat)
    requires i <= |s|
    ensures i <= k <= |s|
    ensures forall j :: i <= j < k ==> IsSpace(s[j])
    ensures k < |s| ==> !IsSpace(s[k])
    decreases |s| - i
  {
    if i == |s| || !IsSpace(s[i]) then i else TextFrom(s, i + 1)
  }

  /** The first index at or after `i` holding `c`, or `|s|`. */
  function IndexFrom(s: string, c: char, i: nat): (k: nat)
    requires i <= |s|
    ensures i <= k <= |s|
    ensures forall j :: i <= j < k ==> s[j] != c
    ensures k < |s| ==> s[k] == c
    decreases |s| - i
  {
    if i == |s| || s[i] == c then i else IndexFrom(s, c, i + 1)
  }

  /** The first `c` at or after `i` is the one at `k` when none comes before it. */
  lemma IndexFromAt(s: string, c: char, i: nat, k: nat)
    requires i <= k < |s| && s[k] == c
    requires forall j :: i <= j < k ==> s[j] != c
    ensures IndexFrom(s, c, i) == k
  {
  }

  /** The text after a run of white space starts where the run ends. */
  lemma TextFromAt(s: string, i: nat, k: nat)
    requires i <= k < |s| && !IsSpace(s[k])
    requires forall j :: i <= j < k ==> IsSpace(s[j])
    ensures TextFrom(s, i) == k
  {
  }

  /** `s.split(/\s+/)`: the pieces between maximal runs of white space.
      A leading or trailing run contributes an empty piece, and the
      empty string splits into one empty piece. */
  function SplitRuns(s: string): (parts: seq<string>)
    ensures |parts| >= 1
    decreases |s|
  {
    var i := SpaceFrom(s, 0);
    if i == |s| then [s]
    else
      var j := TextFrom(s, i);
      [s[..i]] + SplitRuns(s[j..])
  }

  /** `parts.filter(token => token)`: the non-empty pieces, in order. */
  function NonEmpty(parts: seq<string>): (r: seq<string>)
    decreases |parts|
  {
    if |parts| == 0 then []
    else (if parts[0] == [] then [] else [parts[0]]) + NonEmpty(parts[1..])
  }

  /** Reference definition: the maximal runs of non-space characters of
      `s`, read left to right. */
  function Words(s: string): (ws: seq<string>)
    ensures forall k :: 0 <= k < |ws| ==> ws[k] != [] && NoSpace(ws[k])
    decreases |s|
  {
    if |s| == 0 then []
    else if IsSpace(s[0]) then Words(s[1..])
    else
      var k := SpaceFrom(s, 0);
      [s[..k]] + Words(s[k..])
  }

  /** `s` with its white space removed. */
  function RemoveSpace(s: string): (r: string)
    decreases |s|
  {
    if |s| == 0 then [] else (if IsSpace(s[0]) then [] else [s[0]]) + RemoveSpace(s[1..])
  }

  lemma {:induction false} WordsSkipSpace(s: string, m: nat)
    requires m <= |s|
    requires forall j :: 0 <= j < m ==> IsSpace(s[j])
    ensures Words(s) == Words(s[m..])
    decreases m
  {
    if m > 0 {
      assert s[1..][m - 1..] == s[m..];
      WordsSkipSpace(s[1..], m - 1);
    }
  }

  lemma {:induction false} SpaceFromAppend(u: string, w: string, i: nat)
    requires i <= |u|
    requires AllSpace(w)
    ensures SpaceFrom(u + w, i) == SpaceFrom(u, i)
    decreases |u| - i
  {
    if i < |u| && !IsSpace(u[i]) {
      assert (u + w)[i] == u[i];
      SpaceFromAppend(u, w, i + 1);
    }
  }

  lemma {:induction false} WordsAppendSpace(u: string, w: string)
    requires AllSpace(w)
    ensures Words(u + w) == Words(u)
    decreases |u|
  {
    if |u| == 0 {
      assert u + w == w;
      WordsSkipSpace(w, |w|);
      assert w[|w|..] == [];
    } else if IsSpace(u[0]) {
      assert (u + w)[1..] == u[1..] + w;
      WordsAppendSpace(u[1..], w);
    } else {
      SpaceFromAppend(u, w, 0);
      var k := SpaceFrom(u, 0);
      assert (u + w)[..k] == u[..k];
      assert (u + w)[k..] == u[k..] + w;
      WordsAppendSpace(u[k..], w);
    }
  }

  /** Splitting on white-space runs and dropping empty pieces yields
      exactly the words of the string. */
  lemma {:induction false} SplitRunsWords(s: string)
    ensures NonEmpty(SplitRuns(s)) == Words(s)
    decreases |s|
  {
    var i := SpaceFrom(s, 0);
    if i == |s| {
      assert s[..|s|] == s && s[|s|..] == [];
    } else {
      var j := TextFrom(s, i);
      var rest := SplitRuns(s[j..]);
      assert SplitRuns(s) == [s[..i]] + rest;
      assert ([s[..i]] + rest)[1..] == rest;
      SplitRunsWords(s[j..]);
      if i == 0 {
        WordsSkipSpace(s, j);
      } else {
        assert s[i..][j - i..] == s[j..];
        WordsSkipSpace(s[i..], j - i);
      }
    }
  }

  lemma WordsTrimStart(s: string)
    ensures Words(TrimStart(s)) == Words(s)
  {
    var t := TrimStart(s);
    WordsSkipSpace(s, |s| - |t|);
  }

  lemma WordsTrimEnd(t: string)
    ensures Words(TrimEnd(t)) == Words(t)
  {
    var u := TrimEnd(t);
    var w := t[|u|..];
    assert t == u + w;
    assert AllSpace(w) by {
      assert forall i :: 0 <= i < |w| ==> w[i] == t[|u| + i];
    }
    WordsAppendSpace(u, w);
  }

  /** Trimming never changes the words. */
  lemma WordsTrim(s: string)
    ensures Words(Trim(s)) == Words(s)
  {
    WordsTrimStart(s);
    WordsTrimEnd(TrimStart(s));
  }

  /** White space around a string never changes its words. */
  lemma WordsPadding(w1: string, s: string, w2: string)
    requires AllSpace(w1) && AllSpace(w2)
    ensures Words(w1 + s + w2) == Words(s)
  {
    WordsAppendSpace(w1 + s, w2);
    WordsSkipSpace(w1 + s, |w1|);
    assert (w1 + s)[|w1|..] == s;
  }

  /** A string has no words exactly when it is all white space. */
  lemma {:induction false} NoWordsIffBlank(s: string)
    ensures Words(s) == [] <==> AllSpace(s)
    decreases |s|
  {
    if |s| > 0 && IsSpace(s[0]) {
      NoWordsIffBlank(s[1..]);
      assert AllSpace(s) <==> AllSpace(s[1..]) by {
        if AllSpace(s[1..]) {
          forall i | 0 < i < |s| ensures IsSpace(s[i]) {
            assert s[i] == s[1..][i - 1];
          }
        }
      }
    }
  }

  /** `s.trim()` is the empty (falsy) string exactly when `s` is all white space. */
  lemma TrimEmptyIffBlank(s: string)
    ensures Trim(s) == [] <==> AllSpace(s)
  {
    var t := TrimStart(s);
    var u := TrimEnd(t);
    assert forall i :: 0 <= i < |t| ==> t[i] == s[|s| - |t| + i];
    assert |t| > 0 ==> t[0] == s[|s| - |t|];
    assert u == [] ==> AllSpace(t);
  }

  lemma {:induction false} RemoveSpaceAppend(a: string, b: string)
    ensures RemoveSpace(a + b) == RemoveSpace(a) + RemoveSpace(b)
    decreases |a|
  {
    if |a| == 0 {
      assert a + b == b;
    } else {
      assert (a + b)[1..] == a[1..] + b;
      RemoveSpaceAppend(a[1..], b);
    }
  }

  lemma {:induction false} RemoveSpaceOfText(a: string)
    requires NoSpace(a)
    ensures RemoveSpace(a) == a
    decreases |a|
  {
    if |a| > 0 {
      RemoveSpaceOfText(a[1..]);
    }
  }

  /** The words, glued back together, are the input with its white space
      removed: nothing is lost, nothing is reordered. */
  lemma {:induction false} WordsConcat(s: string)
    ensures Concat(Words(s)) == RemoveSpace(s)
    decreases |s|
  {
    if |s| > 0 {
      if IsSpace(s[0]) {
        WordsConcat(s[1..]);
      } else {
        var k := SpaceFrom(s, 0);
        var ws := Words(s);
        assert ws == [s[..k]] + Words(s[k..]);
        assert ws[1..] == Words(s[k..]);
        WordsConcat(s[k..]);
        assert s == s[..k] + s[k..];
        RemoveSpaceAppend(s[..k], s[k..]);
        RemoveSpaceOfText(s[..k]);
      }
    }
  }

  /** Round trip: words joined by single spaces split back into the same words. */
  lemma {:induction false} WordsOfJoin(ts: seq<string>)
    requires forall k :: 0 <= k < |ts| ==> ts[k] != [] && NoSpace(ts[k])
    ensures Words(Join(ts, " ")) == ts
    decreases |ts|
  {
    if |ts| == 1 {
      var t := ts[0];
      SpaceFromAppend(t, [], 0);
      assert t + [] == t;
      assert SpaceFrom(t, 0) == |t|;
      assert t[..|t|] == t && t[|t|..] == [];
    } else if |ts| > 1 {
      var t := ts[0];
      var rest := Join(ts[1..], " ");
      var s := t + " " + rest;
      assert Join(ts, " ") == s;
      WordsOfJoin(ts[1..]);
      assert SpaceFrom(s, 0) == |t| by {
        var k := SpaceFrom(s, 0);
        assert s[|t|] == ' ';
        forall j | 0 <= j < |t| ensures !IsSpace(s[j]) {
          assert s[j] == t[j];
        }
      }
      assert s[..|t|] == t;
      assert s[|t|..] == " " + rest;
      assert (" " + rest)[1..] == rest;
    }
  }
}
