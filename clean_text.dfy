/**
 * `cleanText`: turns a city name into an element id by dropping the first
 * apostrophe, replacing every run of whitespace by one underscore (only when
 * the name contains a space character) and dropping the first comma.
 */
module CleanText {
  import opened Seqs

  /** JavaScript's `\s`: the white-space and line-terminator characters. */
  predicate IsWhitespace(c: char) {
    || c == '\t' || c == '\n' || c == '\U{000B}' || c == '\U{000C}' || c == '\r' || c == ' '
    || c == '\U{00A0}' || c == '\U{1680}' || ('\U{2000}' <= c <= '\U{200A}')
    || c == '\U{2028}' || c == '\U{2029}' || c == '\U{202F}' || c == '\U{205F}' || c == '\U{3000}'
    || c == '\U{FEFF}'
  }

  /** `s.replace(c, "")` with a one-character pattern: only the first occurrence goes. */
  function RemoveFirst(s: string, c: char): (r: string)
    ensures c !in s ==> r == s
    ensures c in s ==> |r| == |s| - 1
  {
    if s == [] then []
    else if s[0] == c then s[1..]
    else
      assert c in s ==> c in s[1..];
      [s[0]] + RemoveFirst(s[1..], c)
  }

  /** RemoveFirst against its reference: cut out the first occurrence. */
  lemma {:induction false} RemoveFirstCuts(s: string, c: char)
    requires c in s
    ensures RemoveFirst(s, c) == s[..FirstIndex(s, c)] + s[FirstIndex(s, c) + 1..]
  {
    CutAt(s, c, FirstIndex(s, c));
  }

  lemma {:induction false} CutAt(s: string, c: char, k: nat)
    requires k < |s| && s[k] == c
    requires forall j :: 0 <= j < k ==> s[j] != c
    ensures RemoveFirst(s, c) == s[..k] + s[k + 1..]
  {
    if k == 0 {
      assert s[..0] + s[1..] == s[1..];
    } else {
      var t := s[1..];
      CutAt(t, c, k - 1);
      assert RemoveFirst(s, c) == [s[0]] + RemoveFirst(t, c);
      assert s[..k] == [s[0]] + t[..k - 1];
      assert s[k + 1..] == t[k..];
    }
  }

  lemma {:induction false} RemoveFirstSubset(s: string, c: char)
    ensures forall i :: 0 <= i < |RemoveFirst(s, c)| ==> RemoveFirst(s, c)[i] in s
  {
    if s != [] && s[0] != c {
      RemoveFirstSubset(s[1..], c);
      assert RemoveFirst(s, c) == [s[0]] + RemoveFirst(s[1..], c);
    }
  }

  lemma {:induction false} RemoveFirstKeeps(s: string, c: char, x: char)
    requires x != c && x in s
    ensures x in RemoveFirst(s, c)
  {
    if s[0] != x {
      RemoveFirstKeeps(s[1..], c, x);
    }
  }

  /** Only one c goes, and nothing else. */
  lemma {:induction false} RemoveFirstCount(s: string, c: char)
    ensures multiset(RemoveFirst(s, c)) == multiset(s) - multiset{c}
  {
    if s != [] {
      assert s == [s[0]] + s[1..];
      if s[0] != c {
        RemoveFirstCount(s[1..], c);
      }
    }
  }

  /** Drops the whitespace at the front. */
  function SkipWhitespace(s: string): (r: string)
    ensures |r| <= |s|
    ensures r == s[|s| - |r|..]
    ensures forall i :: 0 <= i < |s| - |r| ==> IsWhitespace(s[i])
    ensures r == [] || !IsWhitespace(r[0])
  {
    if s != [] && IsWhitespace(s[0]) then SkipWhitespace(s[1..]) else s
  }

  /** `s.replace(/\s+/g, "_")`: every maximal run of whitespace becomes one underscore. */
  function CollapseWhitespace(s: string): (r: string)
    ensures |r| <= |s|
    ensures forall i :: 0 <= i < |r| ==> !IsWhitespace(r[i])
    ensures (forall i :: 0 <= i < |s| ==> !IsWhitespace(s[i])) ==> r == s
    decreases |s|
  {
    if s == [] then []
    else if IsWhitespace(s[0]) then
      var t := CollapseWhitespace(SkipWhitespace(s[1..]));
      NoWhitespaceCons('_', t);
      "_" + t
    else
      var t := CollapseWhitespace(s[1..]);
      NoWhitespaceCons(s[0], t);
      assert s == [s[0]] + s[1..];
      [s[0]] + t
  }

  lemma NoWhitespaceCons(c: char, t: string)
    requires !IsWhitespace(c)
    requires forall i :: 0 <= i < |t| ==> !IsWhitespace(t[i])
    ensures forall i :: 0 <= i < |t| + 1 ==> !IsWhitespace(([c] + t)[i])
  {
  }

  /**
   * Reference for `/\s+/g` replaced by `_`, read character by character: a
   * whitespace character right after another one is dropped, any other
   * whitespace character becomes `_`, and the rest is copied.
   */
  function Underscored(s: string, afterWhitespace: bool): (r: string)
    ensures |r| <= |s|
  {
    if s == [] then []
    else if IsWhitespace(s[0]) then (if afterWhitespace then "" else "_") + Underscored(s[1..], true)
    else [s[0]] + Underscored(s[1..], false)
  }

  lemma {:induction false} UnderscoredSkip(s: string)
    ensures Underscored(s, true) == Underscored(SkipWhitespace(s), false)
  {
    if s != [] && IsWhitespace(s[0]) {
      UnderscoredSkip(s[1..]);
    }
  }

  /** CollapseWhitespace turns each maximal whitespace run into exactly one underscore. */
  lemma {:induction false} CollapseIsUnderscored(s: string)
    ensures CollapseWhitespace(s) == Underscored(s, false)
    decreases |s|
  {
    if s != [] {
      if IsWhitespace(s[0]) {
        UnderscoredSkip(s[1..]);
        CollapseIsUnderscored(SkipWhitespace(s[1..]));
      } else {
        CollapseIsUnderscored(s[1..]);
      }
    }
  }

  /** Two spaces between two words become one underscore. */
  lemma CollapseExample()
    ensures CollapseWhitespace("a  b") == "a_b"
  {
    assert "a  b"[1..] == "  b" && "  b"[1..] == " b" && " b"[1..] == "b" && "b"[1..] == "";
    assert Underscored("b", true) == "b";
    assert Underscored(" b", true) == "b";
    assert Underscored("  b", false) == "_b";
    assert Underscored("a  b", false) == "a_b";
    CollapseIsUnderscored("a  b");
  }

  /** The id for a city name. */
  function CleanText(text: string): (r: string)
    ensures ' ' !in r
    ensures ' ' in text ==> forall i :: 0 <= i < |r| ==> !IsWhitespace(r[i])
    ensures |r| <= |text|
    ensures '\'' !in text && ' ' !in text && ',' !in text ==> r == text
  {
    var noQuote := if '\'' in text then RemoveFirst(text, '\'') else text;
    assert ' ' in text ==> ' ' in noQuote by {
      if ' ' in text { RemoveFirstKeeps(text, '\'', ' '); }
    }
    var noSpace := if ' ' in noQuote then CollapseWhitespace(noQuote) else noQuote;
    assert ' ' !in noSpace;
    var r := if ',' in noSpace then RemoveFirst(noSpace, ',') else noSpace;
    assert forall i :: 0 <= i < |r| ==> r[i] in noSpace by {
      RemoveFirstSubset(noSpace, ',');
    }
    r
  }

  /** The text that matters: everything but whitespace and underscores. */
  function Erase(s: string): (r: string)
    ensures |r| <= |s|
  {
    if s == [] then []
    else (if IsWhitespace(s[0]) || s[0] == '_' then [] else [s[0]]) + Erase(s[1..])
  }

  lemma {:induction false} EraseSkip(s: string)
    ensures Erase(SkipWhitespace(s)) == Erase(s)
  {
    if s != [] && IsWhitespace(s[0]) {
      EraseSkip(s[1..]);
    }
  }

  /** Collapsing whitespace changes nothing but whitespace and underscores. */
  lemma {:induction false} CollapseKeepsText(s: string)
    ensures Erase(CollapseWhitespace(s)) == Erase(s)
    decreases |s|
  {
    if s != [] {
      if IsWhitespace(s[0]) {
        var rest := SkipWhitespace(s[1..]);
        CollapseKeepsText(rest);
        EraseSkip(s[1..]);
        assert ("_" + CollapseWhitespace(rest))[1..] == CollapseWhitespace(rest);
      } else {
        CollapseKeepsText(s[1..]);
        assert ([s[0]] + CollapseWhitespace(s[1..]))[1..] == CollapseWhitespace(s[1..]);
      }
    }
  }

  lemma {:induction false} EraseRemoveFirst(s: string, c: char)
    requires !IsWhitespace(c) && c != '_'
    ensures Erase(RemoveFirst(s, c)) == RemoveFirst(Erase(s), c)
  {
    if s != [] && s[0] != c {
      EraseRemoveFirst(s[1..], c);
      var h := if IsWhitespace(s[0]) || s[0] == '_' then [] else [s[0]];
      assert RemoveFirst(s, c) == [s[0]] + RemoveFirst(s[1..], c);
      assert ([s[0]] + RemoveFirst(s[1..], c))[1..] == RemoveFirst(s[1..], c);
      RemoveFirstAfter(h, Erase(s[1..]), c);
    }
  }

  lemma {:induction false} RemoveFirstAfter(h: string, t: string, c: char)
    requires c !in h
    ensures RemoveFirst(h + t, c) == h + RemoveFirst(t, c)
  {
    if h != [] {
      assert (h + t)[1..] == h[1..] + t;
      RemoveFirstAfter(h[1..], t, c);
    } else {
      assert h + t == t;
    }
  }

  /**
   * What cleanText keeps: apart from whitespace and underscores, the result is
   * the input without its first apostrophe and its first comma.
   */
  lemma CleanTextKeepsText(text: string)
    ensures Erase(CleanText(text)) == RemoveFirst(RemoveFirst(Erase(text), '\''), ',')
  {
    var noQuote := RemoveFirst(text, '\'');
    EraseRemoveFirst(text, '\'');
    CollapseKeepsText(noQuote);
    var noSpace := if ' ' in noQuote then CollapseWhitespace(noQuote) else noQuote;
    EraseRemoveFirst(noSpace, ',');
  }

  /** cleanText is not idempotent: a second apostrophe survives the first pass. */
  lemma CleanTextNotIdempotent()
    ensures CleanText("a''b") == "a'b" && CleanText(CleanText("a''b")) == "ab"
  {
    assert "a''b"[1..] == "''b";
    assert RemoveFirst("a''b", '\'') == "a'b";
    assert RemoveFirst("a'b", '\'') == "ab";
  }
}
