/** The `lastname_firstname` display name of an event registrant
    (apps/events/models.py), computed from the registrant's free-text
    `name` field. */
module Registrants {

  import opened Wrappers

  /** The characters that Python 2's `unicode.split()` treats as
      whitespace: the ASCII controls 9 to 13 and 28 to 31, the space, and the
      Unicode space and line/paragraph separators. */
  predicate IsSpace(c: char)
  {
    var n := c as int;
    (9 <= n <= 13) || (28 <= n <= 32) || n == 0x85 || n == 0xA0 || n == 0x1680
    || n == 0x180E || (0x2000 <= n <= 0x200A) || n == 0x2028 || n == 0x2029
    || n == 0x202F || n == 0x205F || n == 0x3000
  }

  /** A token: a non-empty run of non-whitespace characters. */
  predicate IsWord(w: string)
  {
    w != [] && forall i :: 0 <= i < |w| ==> !IsSpace(w[i])
  }

  /** The longest prefix of `s` that holds no whitespace. */
  function WordPrefix(s: string): (w: string)
    ensures |w| <= |s| && w == s[..|w|]
    ensures forall i :: 0 <= i < |w| ==> !IsSpace(w[i])
    ensures |w| < |s| ==> IsSpace(s[|w|])
    ensures s != [] && !IsSpace(s[0]) ==> w != []
  {
    if s == [] || IsSpace(s[0]) then [] else [s[0]] + WordPrefix(s[1..])
  }

  /** `s.split()`: the maximal runs of non-whitespace characters of `s`, in
      order. */
  function Tokens(s: string): (ts: seq<string>)
    decreases |s|
    ensures forall i :: 0 <= i < |ts| ==> IsWord(ts[i])
  {
    if s == [] then []
    else if IsSpace(s[0]) then Tokens(s[1..])
    else
      var w := WordPrefix(s);
      [w] + Tokens(s[|w|..])
  }

  /** The characters of `s` that are not whitespace, in order. */
  function NonSpace(s: string): string
  {
    if s == [] then [] else (if IsSpace(s[0]) then [] else [s[0]]) + NonSpace(s[1..])
  }

  /** The words of `ts` run together. */
  function Concat(ts: seq<string>): string
  {
    if ts == [] then [] else ts[0] + Concat(ts[1..])
  }

  /** The words of `ws` joined by single spaces. */
  function JoinWords(ws: seq<string>): string
  {
    if ws == [] then [] else if |ws| == 1 then ws[0] else ws[0] + " " + JoinWords(ws[1..])
  }

  lemma {:induction false} NonSpaceAppend(a: string, b: string)
    ensures NonSpace(a + b) == NonSpace(a) + NonSpace(b)
  {
    if a == [] {
      assert a + b == b;
    } else {
      assert (a + b)[1..] == a[1..] + b;
      NonSpaceAppend(a[1..], b);
    }
  }

  lemma {:induction false} NonSpaceOfWord(w: string)
    requires forall i :: 0 <= i < |w| ==> !IsSpace(w[i])
    ensures NonSpace(w) == w
  {
    if w != [] {
      NonSpaceOfWord(w[1..]);
    }
  }

  /** Splitting loses exactly the whitespace: the tokens run together are
      the non-whitespace characters of the input. */
  lemma {:induction false} TokensKeepContent(s: string)
    ensures Concat(Tokens(s)) == NonSpace(s)
    decreases |s|
  {
    if s == [] {
    } else if IsSpace(s[0]) {
      TokensKeepContent(s[1..]);
    } else {
      var w := WordPrefix(s);
      assert s == w + s[|w|..];
      TokensKeepContent(s[|w|..]);
      NonSpaceAppend(w, s[|w|..]);
      NonSpaceOfWord(w);
      assert ([w] + Tokens(s[|w|..]))[1..] == Tokens(s[|w|..]);
    }
  }

  lemma {:induction false} WordPrefixOfWord(w: string, rest: string)
    requires IsWord(w)
    requires rest == [] || IsSpace(rest[0])
    ensures WordPrefix(w + rest) == w
  {
    if |w| > 1 {
      assert (w + rest)[1..] == w[1..] + rest;
      WordPrefixOfWord(w[1..], rest);
    } else {
      assert (w + rest)[1..] == rest;
    }
  }

  /** Splitting undoes joining with single spaces: words without whitespace
      come back one for one. */
  lemma {:induction false} TokensOfJoinWords(ws: seq<string>)
    requires forall i :: 0 <= i < |ws| ==> IsWord(ws[i])
    ensures Tokens(JoinWords(ws)) == ws
  {
    if ws == [] {
    } else if |ws| == 1 {
      var w := ws[0];
      WordPrefixOfWord(w, []);
      assert w + [] == w;
      assert w[|w|..] == [];
    } else {
      var w, rest := ws[0], " " + JoinWords(ws[1..]);
      var s := w + rest;
      assert JoinWords(ws) == s;
      WordPrefixOfWord(w, rest);
      assert s[|w|..] == rest;
      assert rest[1..] == JoinWords(ws[1..]);
      TokensOfJoinWords(ws[1..]);
    }
  }

  /** `g` is made of whitespace only (it may be empty). */
  predicate IsGap(g: string)
  {
    forall i :: 0 <= i < |g| ==> IsSpace(g[i])
  }

  /** `gs` can separate the words `ws`: one gap more than there are words,
      every gap whitespace only, and the gaps between two words non-empty. */
  predicate GapsFit(gs: seq<string>, ws: seq<string>)
  {
    && |gs| == |ws| + 1
    && (forall i :: 0 <= i < |gs| ==> IsGap(gs[i]))
    && (forall i :: 0 < i < |ws| ==> gs[i] != [])
  }

  /** `gs[0] + ws[0] + gs[1] + ... + ws[n-1] + gs[n]`. */
  function Interleave(gs: seq<string>, ws: seq<string>): string
    requires |gs| == |ws| + 1
  {
    if ws == [] then gs[0] else gs[0] + ws[0] + Interleave(gs[1..], ws[1..])
  }

  /** The whitespace gaps of `s`, from the one before its first token to the
      one after its last. */
  function Gaps(s: string): (gs: seq<string>)
    decreases |s|
    ensures |gs| == |Tokens(s)| + 1
    ensures s != [] && IsSpace(s[0]) ==> gs[0] != [] && gs[0][0] == s[0]
  {
    if s == [] then [[]]
    else if IsSpace(s[0]) then
      var g := Gaps(s[1..]);
      [[s[0]] + g[0]] + g[1..]
    else
      var w := WordPrefix(s);
      [[]] + Gaps(s[|w|..])
  }

  lemma {:induction false} TokensSkipGap(g: string, s: string)
    requires IsGap(g)
    ensures Tokens(g + s) == Tokens(s)
  {
    if g == [] {
      assert g + s == s;
    } else {
      assert (g + s)[1..] == g[1..] + s;
      TokensSkipGap(g[1..], s);
    }
  }

  /** Splitting undoes interleaving: whitespace-free words separated by any
      non-empty whitespace, with any whitespace before the first and after the
      last, come back one for one. */
  lemma {:induction false} TokensOfInterleave(gs: seq<string>, ws: seq<string>)
    requires GapsFit(gs, ws)
    requires forall i :: 0 <= i < |ws| ==> IsWord(ws[i])
    ensures Tokens(Interleave(gs, ws)) == ws
  {
    if ws == [] {
      TokensSkipGap(gs[0], []);
      assert gs[0] + [] == gs[0];
    } else {
      var w := ws[0];
      var rest := Interleave(gs[1..], ws[1..]);
      assert rest == [] || IsSpace(rest[0]) by {
        if |ws| > 1 {
          assert gs[1] != [] && IsGap(gs[1]);
          assert rest == gs[1] + ws[1] + Interleave(gs[2..], ws[2..]);
        } else {
          assert rest == gs[1] && IsGap(gs[1]);
        }
      }
      assert Interleave(gs, ws) == gs[0] + (w + rest);
      TokensSkipGap(gs[0], w + rest);
      WordPrefixOfWord(w, rest);
      assert (w + rest)[|w|..] == rest;
      assert GapsFit(gs[1..], ws[1..]) by {
        forall i | 0 < i < |ws[1..]| ensures gs[1..][i] != [] {
          assert gs[1..][i] == gs[i + 1];
        }
      }
      TokensOfInterleave(gs[1..], ws[1..]);
    }
  }

  lemma InterleaveWiden(c: string, gs: seq<string>, ws: seq<string>)
    requires |gs| == |ws| + 1
    ensures Interleave([c + gs[0]] + gs[1..], ws) == c + Interleave(gs, ws)
  {
    var hs := [c + gs[0]] + gs[1..];
    assert hs[1..] == gs[1..];
  }

  lemma GapsFitAfterSpace(s: string)
    requires s != [] && IsSpace(s[0])
    requires GapsFit(Gaps(s[1..]), Tokens(s[1..]))
    ensures GapsFit(Gaps(s), Tokens(s))
  {
    var g, ts := Gaps(s[1..]), Tokens(s[1..]);
    var gs := Gaps(s);
    assert gs == [[s[0]] + g[0]] + g[1..];
    assert Tokens(s) == ts;
    assert IsGap(gs[0]) by {
      assert IsGap(g[0]);
      assert gs[0] == [s[0]] + g[0];
    }
    forall i | 0 < i < |gs| ensures gs[i] == g[i] {
    }
  }

  lemma GapsFitAfterWord(s: string, w: string, r: string)
    requires s != [] && !IsSpace(s[0])
    requires w == WordPrefix(s) && r == s[|w|..]
    requires GapsFit(Gaps(r), Tokens(r))
    ensures GapsFit(Gaps(s), Tokens(s))
  {
    var g, ts := Gaps(r), Tokens(r);
    var gs := Gaps(s);
    assert gs == [[]] + g;
    assert Tokens(s) == [w] + ts;
    forall i | 0 < i < |gs| ensures gs[i] == g[i - 1] {
    }
    assert ts != [] ==> g[0] != [] by {
      if ts != [] {
        assert r != [] && IsSpace(r[0]);
      }
    }
  }

  /** The gaps of every string fit its tokens. */
  lemma {:induction false} GapsFitTokens(s: string)
    decreases |s|
    ensures GapsFit(Gaps(s), Tokens(s))
  {
    if s == [] {
    } else if IsSpace(s[0]) {
      GapsFitTokens(s[1..]);
      GapsFitAfterSpace(s);
    } else {
      var w := WordPrefix(s);
      GapsFitTokens(s[|w|..]);
      GapsFitAfterWord(s, w, s[|w|..]);
    }
  }

  lemma ShapeAfterSpace(s: string)
    requires s != [] && IsSpace(s[0])
    requires Interleave(Gaps(s[1..]), Tokens(s[1..])) == s[1..]
    ensures Interleave(Gaps(s), Tokens(s)) == s
  {
    var g, ts := Gaps(s[1..]), Tokens(s[1..]);
    assert Gaps(s) == [[s[0]] + g[0]] + g[1..];
    assert Tokens(s) == ts;
    InterleaveWiden([s[0]], g, ts);
    assert [s[0]] + s[1..] == s;
  }

  lemma InterleaveCons(g: string, gs: seq<string>, w: string, ws: seq<string>)
    requires |gs| == |ws| + 1
    ensures Interleave([g] + gs, [w] + ws) == g + w + Interleave(gs, ws)
  {
    assert ([g] + gs)[1..] == gs && ([w] + ws)[1..] == ws;
  }

  lemma ShapeAfterWord(s: string, w: string, r: string)
    requires s != [] && !IsSpace(s[0])
    requires w == WordPrefix(s) && r == s[|w|..]
    requires Interleave(Gaps(r), Tokens(r)) == r
    ensures Interleave(Gaps(s), Tokens(s)) == s
  {
    var gs, ts := Gaps(r), Tokens(r);
    assert Gaps(s) == [[]] + gs;
    assert Tokens(s) == [w] + ts;
    InterleaveCons([], gs, w, ts);
    assert [] + w == w;
    assert s == w + r;
  }

  /** Every string is its tokens interleaved with its whitespace gaps; with
      GapsFitTokens and TokensOfInterleave this pins `Tokens(s)` down as the
      maximal runs of non-whitespace characters of `s`. */
  lemma {:induction false} TokensShape(s: string)
    decreases |s|
    ensures Interleave(Gaps(s), Tokens(s)) == s
  {
    if s == [] {
    } else if IsSpace(s[0]) {
      TokensShape(s[1..]);
      ShapeAfterSpace(s);
    } else {
      var w := WordPrefix(s);
      TokensShape(s[|w|..]);
      ShapeAfterWord(s, w, s[|w|..]);
    }
  }

  /** `Tokens(s)` is exactly the list of whitespace-free words that,
      separated by suitable whitespace gaps, spells `s`. */
  lemma TokensCharacterised(s: string, ws: seq<string>)
    ensures ws == Tokens(s) <==>
      && (forall i :: 0 <= i < |ws| ==> IsWord(ws[i]))
      && exists gs :: GapsFit(gs, ws) && Interleave(gs, ws) == s
  {
    if ws == Tokens(s) {
      GapsFitTokens(s);
      TokensShape(s);
      assert GapsFit(Gaps(s), ws) && Interleave(Gaps(s), ws) == s;
    } else if (forall i :: 0 <= i < |ws| ==> IsWord(ws[i])) {
      forall gs | GapsFit(gs, ws) ensures Interleave(gs, ws) != s {
        TokensOfInterleave(gs, ws);
      }
    }
  }

  /** The first and last name picked from the tokens of a free-text name:
      `prefix first middle last suffix` for five tokens, `first middle last
      suffix` for four, `first middle last` for three, `first last` for two,
      `first` alone for one; for none or more than five the whole name is
      taken as the first name and the last name stays empty. */
  function FirstAndLast(name: string): (string, string)
  {
    var t := Tokens(name);
    if |t| == 5 then (t[1], t[3])
    else if |t| == 4 then (t[0], t[2])
    else if |t| == 3 then (t[0], t[2])
    else if |t| == 2 then (t[0], t[1])
    else if |t| == 1 then (t[0], "")
    else (name, "")
  }

  /** `Registrant.lastname_firstname`: "last, first" when both parts are
      non-empty, the first name alone when only it is, nothing otherwise.
      It yields nothing exactly when the name is the empty string. */
  function LastnameFirstname(name: string): (r: Option<string>)
    ensures r == None <==> name == ""
  {
    var (first, last) := FirstAndLast(name);
    if first != "" && last != "" then Some(last + ", " + first)
    else if first != "" then Some(first)
    else None
  }

  /** The display name by the number of tokens in the name. */
  lemma LastnameFirstnameByCount(name: string)
    ensures var t := Tokens(name);
      && (|t| == 0 ==> LastnameFirstname(name) == if name == "" then None else Some(name))
      && (|t| == 1 ==> LastnameFirstname(name) == Some(t[0]))
      && (|t| == 2 ==> LastnameFirstname(name) == Some(t[1] + ", " + t[0]))
      && (3 <= |t| <= 4 ==> LastnameFirstname(name) == Some(t[2] + ", " + t[0]))
      && (|t| == 5 ==> LastnameFirstname(name) == Some(t[3] + ", " + t[1]))
      && (|t| > 5 ==> LastnameFirstname(name) == Some(name))
  {
  }

  /** A name typed as "first last" (any whitespace-free words) is shown as
      "last, first". */
  lemma FirstLastShownLastFirst(first: string, last: string)
    requires IsWord(first) && IsWord(last)
    ensures LastnameFirstname(first + " " + last) == Some(last + ", " + first)
  {
    TokensOfJoinWords([first, last]);
  }

  lemma JoinWordsCons(w: string, ws: seq<string>)
    requires ws != []
    ensures JoinWords([w] + ws) == w + " " + JoinWords(ws)
  {
    assert ([w] + ws)[1..] == ws;
  }

  /** A name typed as "prefix first middle last suffix" is shown as
      "last, first": the title and the suffix are dropped. */
  lemma FullNameShownLastFirst(prefix: string, first: string, middle: string, last: string, suffix: string)
    requires IsWord(prefix) && IsWord(first) && IsWord(middle) && IsWord(last) && IsWord(suffix)
    ensures LastnameFirstname(prefix + " " + first + " " + middle + " " + last + " " + suffix)
         == Some(last + ", " + first)
  {
    var ws := [prefix, first, middle, last, suffix];
    var name := prefix + " " + first + " " + middle + " " + last + " " + suffix;
    JoinWordsCons(last, [suffix]);
    JoinWordsCons(middle, [last, suffix]);
    JoinWordsCons(first, [middle, last, suffix]);
    JoinWordsCons(prefix, [first, middle, last, suffix]);
    assert [last] + [suffix] == [last, suffix];
    assert [middle] + [last, suffix] == [middle, last, suffix];
    assert [first] + [middle, last, suffix] == [first, middle, last, suffix];
    assert [prefix] + [first, middle, last, suffix] == ws;
    assert JoinWords(ws) == name;
    TokensOfJoinWords(ws);
    assert Tokens(name) == ws;
    assert FirstAndLast(name) == (first, last);
  }

  /** A non-empty name made of whitespace only has no tokens and is shown
      as it is. */
  lemma BlankNameShownAsIs(name: string)
    requires name != [] && IsGap(name)
    ensures LastnameFirstname(name) == Some(name)
  {
    TokensSkipGap(name, []);
    assert name + [] == name;
  }
}
