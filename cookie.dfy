/**
 * The cookie medium's string functions: the three-rule escape and its
 * inverse, the 4096-character guard of `setCookie`, and the lookup of one
 * `name=value` pair in a `document.cookie` string of the shape described in
 * section 4.2.1 of RFC 6265 (`name=value; name=value`). Both revisions share
 * these functions; the older one first applies `toString()` to the value.
 */
module Cookie {
  import opened Types
  import Helper

  /** The limit `setCookie` enforces, counted in characters of `name=value`. */
  const MaxCookieLength: nat := 4096

  /* ---------------- Replacing, as `String.replace` with a global pattern ---------------- */

  /** `s.replace(/c/g, rep)`: every occurrence of the character `c` becomes `rep`. */
  function ReplaceChar(s: string, c: char, rep: string): string
  {
    if s == [] then [] else (if s[0] == c then rep else [s[0]]) + ReplaceChar(s[1..], c, rep)
  }

  lemma {:induction false} ReplaceCharAppend(a: string, b: string, c: char, rep: string)
    ensures ReplaceChar(a + b, c, rep) == ReplaceChar(a, c, rep) + ReplaceChar(b, c, rep)
  {
    if a == [] {
      assert a + b == b;
    } else {
      assert (a + b)[0] == a[0];
      assert (a + b)[1..] == a[1..] + b;
      ReplaceCharAppend(a[1..], b, c, rep);
    }
  }

  /**
   * `s.replace(/ab/g, [r])`: scanning left to right, every non-overlapping
   * occurrence of the two-character pattern `ab` becomes `r`.
   */
  function ReplacePair(s: string, a: char, b: char, r: char): string
  {
    if |s| < 2 then s
    else if s[0] == a && s[1] == b then [r] + ReplacePair(s[2..], a, b, r)
    else [s[0]] + ReplacePair(s[1..], a, b, r)
  }

  lemma ReplacePairMatch(t: string, a: char, b: char, r: char)
    ensures ReplacePair([a, b] + t, a, b, r) == [r] + ReplacePair(t, a, b, r)
  {
    assert ([a, b] + t)[2..] == t;
  }

  lemma ReplacePairSkip(x: char, t: string, a: char, b: char, r: char)
    requires x != a || t == [] || t[0] != b
    ensures ReplacePair([x] + t, a, b, r) == [x] + ReplacePair(t, a, b, r)
  {
    if t != [] {
      assert ([x] + t)[1..] == t;
    } else {
      assert [x] + t == [x];
    }
  }

  /** Two leading characters that start no match pass through unchanged. */
  lemma ReplacePairSkipTwo(x: char, y: char, e: string, a: char, b: char, r: char)
    requires x != a || y != b
    requires y != a || e == [] || e[0] != b
    ensures ReplacePair([x, y] + e, a, b, r) == [x, y] + ReplacePair(e, a, b, r)
  {
    ReplacePairSkip(y, e, a, b, r);
    ReplacePairSkip(x, [y] + e, a, b, r);
    assert [x, y] + e == [x] + ([y] + e);
  }

  /* ---------------- escapeCookie ---------------- */

  /** `escapeCookie`: `%` becomes `%%`, then `;` becomes `%S`, then `"` becomes `%Q`. */
  function Escape(value: string): string
  {
    ReplaceChar(ReplaceChar(ReplaceChar(value, '%', "%%"), ';', "%S"), '"', "%Q")
  }

  /** What the three replacements together do to one character. */
  function EscapeChar(ch: char): string
  {
    if ch == '%' then "%%" else if ch == ';' then "%S" else if ch == '"' then "%Q" else [ch]
  }

  lemma ReplaceCharSingle(x: char, c: char, rep: string)
    ensures ReplaceChar([x], c, rep) == if x == c then rep else [x]
  {
    assert [x][1..] == [];
  }

  /** Replacing in a two-character string, character by character. */
  lemma ReplaceCharTwo(x: char, y: char, c: char, rep: string)
    ensures ReplaceChar([x, y], c, rep) == ReplaceChar([x], c, rep) + ReplaceChar([y], c, rep)
  {
    assert [x, y] == [x] + [y];
    ReplaceCharAppend([x], [y], c, rep);
  }

  /** The chained replacements act character by character. */
  lemma EscapeCons(ch: char, t: string)
    ensures Escape([ch] + t) == EscapeChar(ch) + Escape(t)
  {
    var t1 := ReplaceChar(t, '%', "%%");
    var t2 := ReplaceChar(t1, ';', "%S");
    ReplaceCharAppend([ch], t, '%', "%%");
    ReplaceCharSingle(ch, '%', "%%");
    var r1 := if ch == '%' then "%%" else [ch];
    ReplaceCharAppend(r1, t1, ';', "%S");
    var r2 := if ch == '%' then "%%" else if ch == ';' then "%S" else [ch];
    if ch == '%' {
      ReplaceCharTwo('%', '%', ';', "%S");
      ReplaceCharSingle('%', ';', "%S");
    } else {
      ReplaceCharSingle(ch, ';', "%S");
    }
    assert ReplaceChar(r1, ';', "%S") == r2;
    ReplaceCharAppend(r2, t2, '"', "%Q");
    if ch == '%' {
      ReplaceCharTwo('%', '%', '"', "%Q");
      ReplaceCharSingle('%', '"', "%Q");
    } else if ch == ';' {
      ReplaceCharTwo('%', 'S', '"', "%Q");
      ReplaceCharSingle('%', '"', "%Q");
      ReplaceCharSingle('S', '"', "%Q");
    } else {
      ReplaceCharSingle(ch, '"', "%Q");
    }
    assert ReplaceChar(r2, '"', "%Q") == EscapeChar(ch);
  }

  lemma EscapeEmpty()
    ensures Escape([]) == []
  {
  }

  /** The first character of an escaped string: `%` for the three special characters, otherwise the character itself. */
  lemma EscapeHead(s: string)
    requires s != []
    ensures Escape(s) != [] && Escape(s)[0] == (if s[0] in {'%', ';', '"'} then '%' else s[0])
  {
    assert s == [s[0]] + s[1..];
    EscapeCons(s[0], s[1..]);
  }

  /** The escaped value never contains the cookie separator `;` or a double quote. */
  lemma {:induction false} EscapeIsSafe(s: string)
    ensures ';' !in Escape(s) && '"' !in Escape(s)
  {
    if s != [] {
      assert s == [s[0]] + s[1..];
      EscapeCons(s[0], s[1..]);
      EscapeIsSafe(s[1..]);
    }
  }

  /** Escaping at most doubles the length, and only the empty value escapes to the empty string. */
  lemma {:induction false} EscapeLength(s: string)
    ensures |s| <= |Escape(s)| <= 2 * |s|
    ensures Escape(s) == [] <==> s == []
  {
    if s != [] {
      assert s == [s[0]] + s[1..];
      EscapeCons(s[0], s[1..]);
      EscapeLength(s[1..]);
    }
  }

  /* ---------------- unescapeCookie, as written ---------------- */

  /** `unescapeCookie` as written: `%Q` becomes `"`, then `%S` becomes `;`, then `%%` becomes `%`. */
  function UnescapeChained(value: string): string
  {
    ReplacePair(ReplacePair(ReplacePair(value, '%', 'Q', '"'), '%', 'S', ';'), '%', '%', '%')
  }

  /** No `%` in the value is immediately followed by `S` or `Q`. */
  predicate NoMarker(s: string)
  {
    forall i :: 0 <= i < |s| - 1 && s[i] == '%' ==> s[i + 1] != 'S' && s[i + 1] != 'Q'
  }

  lemma NoMarkerTail(s: string)
    requires s != [] && NoMarker(s)
    ensures NoMarker(s[1..])
  {
    forall i | 0 <= i < |s[1..]| - 1 && s[1..][i] == '%'
      ensures s[1..][i + 1] != 'S' && s[1..][i + 1] != 'Q'
    {
      assert s[1..][i] == s[i + 1] && s[1..][i + 1] == s[i + 2];
    }
  }

  /** The escape with `"` already decoded. */
  function QuoteDecoded(s: string): string
  {
    if s == [] then [] else (if s[0] == '%' then "%%" else if s[0] == ';' then "%S" else [s[0]]) + QuoteDecoded(s[1..])
  }

  /** The escape with `"` and `;` already decoded. */
  function SemicolonDecoded(s: string): string
  {
    if s == [] then [] else (if s[0] == '%' then "%%" else [s[0]]) + SemicolonDecoded(s[1..])
  }

  /** One character's step of `UndoQuote`, given the step for the rest. */
  lemma QuoteStep(c: char, t: string)
    requires c == '%' && t != [] ==> t[0] != 'Q'
    requires ReplacePair(Escape(t), '%', 'Q', '"') == QuoteDecoded(t)
    ensures ReplacePair(Escape([c] + t), '%', 'Q', '"') == QuoteDecoded([c] + t)
  {
    var s := [c] + t;
    assert s[0] == c && s[1..] == t;
    EscapeCons(c, t);
    var e := Escape(t);
    assert QuoteDecoded(s) == (if c == '%' then "%%" else if c == ';' then "%S" else [c]) + QuoteDecoded(t);
    if t != [] { EscapeHead(t); }
    if c == '"' {
      ReplacePairMatch(e, '%', 'Q', '"');
    } else if c == '%' {
      ReplacePairSkipTwo('%', '%', e, '%', 'Q', '"');
    } else if c == ';' {
      ReplacePairSkipTwo('%', 'S', e, '%', 'Q', '"');
    } else {
      ReplacePairSkip(c, e, '%', 'Q', '"');
    }
  }

  lemma {:induction false} UndoQuote(s: string)
    requires NoMarker(s)
    ensures ReplacePair(Escape(s), '%', 'Q', '"') == QuoteDecoded(s)
  {
    if s == [] {
      EscapeEmpty();
    } else {
      var c, t := s[0], s[1..];
      assert s == [c] + t;
      NoMarkerTail(s);
      UndoQuote(t);
      assert c == '%' && t != [] ==> t[0] != 'Q' by {
        if |s| > 1 { assert s[1] == t[0]; }
      }
      QuoteStep(c, t);
    }
  }

  lemma QuoteDecodedHead(s: string)
    requires s != []
    ensures QuoteDecoded(s) != [] && QuoteDecoded(s)[0] == (if s[0] in {'%', ';'} then '%' else s[0])
  {
  }

  /** One character's step of `UndoSemicolon`, given the step for the rest. */
  lemma SemicolonStep(c: char, t: string)
    requires c == '%' && t != [] ==> t[0] != 'S'
    requires ReplacePair(QuoteDecoded(t), '%', 'S', ';') == SemicolonDecoded(t)
    ensures ReplacePair(QuoteDecoded([c] + t), '%', 'S', ';') == SemicolonDecoded([c] + t)
  {
    var s := [c] + t;
    assert s[0] == c && s[1..] == t;
    var e := QuoteDecoded(t);
    assert QuoteDecoded(s) == (if c == '%' then "%%" else if c == ';' then "%S" else [c]) + e;
    assert SemicolonDecoded(s) == (if c == '%' then "%%" else [c]) + SemicolonDecoded(t);
    if t != [] { QuoteDecodedHead(t); }
    if c == ';' {
      ReplacePairMatch(e, '%', 'S', ';');
    } else if c == '%' {
      ReplacePairSkipTwo('%', '%', e, '%', 'S', ';');
    } else {
      ReplacePairSkip(c, e, '%', 'S', ';');
    }
  }

  lemma {:induction false} UndoSemicolon(s: string)
    requires NoMarker(s)
    ensures ReplacePair(QuoteDecoded(s), '%', 'S', ';') == SemicolonDecoded(s)
  {
    if s != [] {
      var c, t := s[0], s[1..];
      assert s == [c] + t;
      NoMarkerTail(s);
      UndoSemicolon(t);
      assert c == '%' && t != [] ==> t[0] != 'S' by {
        if |s| > 1 { assert s[1] == t[0]; }
      }
      SemicolonStep(c, t);
    }
  }

  lemma {:induction false} UndoPercent(s: string)
    ensures ReplacePair(SemicolonDecoded(s), '%', '%', '%') == s
  {
    if s != [] {
      var c, t := s[0], s[1..];
      UndoPercent(t);
      var e := SemicolonDecoded(t);
      assert SemicolonDecoded(s) == (if c == '%' then "%%" else [c]) + e;
      if c == '%' {
        ReplacePairMatch(e, '%', '%', '%');
      } else {
        ReplacePairSkip(c, e, '%', '%', '%');
      }
      assert s == [c] + t;
    }
  }

  /** As written, unescaping undoes escaping for values with no `%` immediately followed by `S` or `Q`. */
  lemma ChainedRoundTrip(s: string)
    requires NoMarker(s)
    ensures UnescapeChained(Escape(s)) == s
  {
    UndoQuote(s);
    UndoSemicolon(s);
    UndoPercent(s);
  }

  /** As written, the round trip fails on the value `%Q`: it comes back as `%"`. */
  lemma ChainedRoundTripFails()
    ensures Escape("%Q") == "%%Q"
    ensures UnescapeChained(Escape("%Q")) == "%\""
  {
    EscapeCons('%', "Q");
    EscapeCons('Q', "");
    assert "%Q" == ['%'] + "Q";
    assert "Q" == ['Q'] + "";
    var e := "%%Q";
    ReplacePairSkip('%', "%Q", '%', 'Q', '"');
    ReplacePairMatch("", '%', 'Q', '"');
    assert ReplacePair(e, '%', 'Q', '"') == "%\"";
    ReplacePairSkip('%', "\"", '%', 'S', ';');
    ReplacePairSkip('%', "\"", '%', '%', '%');
  }

  /* ---------------- unescapeCookie, corrected ---------------- */

  /** The character a two-character escape stands for. */
  function Unmark(m: char): char
  {
    if m == 'Q' then '"' else if m == 'S' then ';' else '%'
  }

  /**
   * Corrected `unescapeCookie`: one left-to-right scan that decodes each
   * of `%%`, `%S` and `%Q` where it starts, so an escaped `%` is never
   * read as the start of a marker.
   */
  function Unescape(value: string): string
  {
    if |value| >= 2 && value[0] == '%' && value[1] in {'%', 'S', 'Q'} then
      [Unmark(value[1])] + Unescape(value[2..])
    else if value == [] then []
    else [value[0]] + Unescape(value[1..])
  }

  /** The corrected unescape undoes the escape for every value. */
  lemma {:induction false} RoundTrip(s: string)
    ensures Unescape(Escape(s)) == s
  {
    if s == [] {
      EscapeEmpty();
    } else {
      var c, t := s[0], s[1..];
      assert s == [c] + t;
      EscapeCons(c, t);
      RoundTrip(t);
      var e := Escape(t);
      if c in {'%', ';', '"'} {
        assert (EscapeChar(c) + e)[2..] == e;
      } else {
        assert (EscapeChar(c) + e)[1..] == e;
      }
    }
  }

  /** Where the chained version works, the corrected one agrees with it. */
  lemma UnescapeAgrees(s: string)
    requires NoMarker(s)
    ensures Unescape(Escape(s)) == UnescapeChained(Escape(s))
  {
    RoundTrip(s);
    ChainedRoundTrip(s);
  }

  /* ---------------- setCookie ---------------- */

  /**
   * `setCookie(name, value)`: the assignment `name=escaped` to
   * `document.cookie`, refused with CookieTooLarge when it is longer than
   * 4096 characters.
   */
  function SetCookie(name: string, value: string): (r: Result<string>)
    ensures r.Err? <==> |name| + 1 + |Escape(value)| > MaxCookieLength
    ensures r.Err? ==> r.error == CookieTooLarge
    ensures r.Ok? ==> r.value == name + "=" + Escape(value) && |r.value| <= MaxCookieLength
  {
    var cookieString := name + "=" + Escape(value);
    if |cookieString| > MaxCookieLength then Err(CookieTooLarge) else Ok(cookieString)
  }

  /** Bounds on the guard in terms of the unescaped value. */
  lemma SetCookieBounds(name: string, value: string)
    ensures |name| + 1 + 2 * |value| <= MaxCookieLength ==> SetCookie(name, value).Ok?
    ensures |name| + 1 + |value| > MaxCookieLength ==> SetCookie(name, value).Err?
  {
    EscapeLength(value);
  }

  /* ---------------- getCookie ---------------- */

  /** `str.indexOf(c)`: the first index of `c`, or -1. */
  function IndexOf(s: string, c: char): (i: int)
    ensures -1 <= i < |s|
    ensures i >= 0 ==> s[i] == c && c !in s[..i]
    ensures i < 0 ==> c !in s
  {
    if s == [] then -1
    else if s[0] == c then 0
    else
      var j := IndexOf(s[1..], c);
      assert j >= 0 ==> s[..j + 1] == [s[0]] + s[1..][..j];
      if j < 0 then -1 else j + 1
  }

  /** The characters the pattern `\s` matches. */
  predicate IsSpace(ch: char)
  {
    ch in {'\t', '\n', '\U{000B}', '\U{000C}', '\r', ' ', '\U{00A0}', '\U{1680}',
           '\U{2028}', '\U{2029}', '\U{202F}', '\U{205F}', '\U{3000}', '\U{FEFF}'}
    || '\U{2000}' <= ch <= '\U{200A}'
  }

  /** Every character of `s` is whitespace. */
  predicate AllSpace(s: string)
  {
    forall i :: 0 <= i < |s| ==> IsSpace(s[i])
  }

  lemma AllSpaceCons(x: char, t: string)
    requires IsSpace(x) && AllSpace(t)
    ensures AllSpace([x] + t)
  {
    forall i | 0 <= i < |[x] + t|
      ensures IsSpace(([x] + t)[i])
    {
      if i > 0 { assert ([x] + t)[i] == t[i - 1]; }
    }
  }

  /** Drop the whitespace the pattern `\s*` consumes. */
  function SkipSpace(s: string): (r: string)
    ensures |r| <= |s| && r == s[|s| - |r|..]
    ensures AllSpace(s[..|s| - |r|])
    ensures r == [] || !IsSpace(r[0])
  {
    if s != [] && IsSpace(s[0]) then
      var r := SkipSpace(s[1..]);
      assert s[..|s| - |r|] == [s[0]] + s[1..][..|s| - 1 - |r|];
      AllSpaceCons(s[0], s[1..][..|s| - 1 - |r|]);
      r
    else s
  }

  /**
   * `cookie.split(/;\s*\/)`: the pieces between separators, none holding a
   * `;`; the first is the text before the first `;` (their number is
   * `SplitPairsCount`).
   */
  function SplitPairs(s: string): (pieces: seq<string>)
    ensures |pieces| >= 1
    ensures forall i :: 0 <= i < |pieces| ==> ';' !in pieces[i]
    ensures var k := IndexOf(s, ';'); pieces[0] == if k < 0 then s else s[..k]
    decreases |s|
  {
    var i := IndexOf(s, ';');
    if i < 0 then [s] else [s[..i]] + SplitPairs(SkipSpace(s[i + 1..]))
  }

  /** A piece the `\s*` of the separator has trimmed: empty, or starting with a non-space. */
  predicate Trimmed(p: string)
  {
    p == [] || !IsSpace(p[0])
  }

  /**
   * The `\s*` of the separator: every piece after the first starts after the
   * whitespace that follows its `;`, so it is empty or starts with a non-space.
   */
  lemma {:induction false} SplitPairsTrimmed(s: string, j: nat)
    ensures 0 < j < |SplitPairs(s)| ==> Trimmed(SplitPairs(s)[j])
    decreases j, 1
  {
    if j == 1 && j < |SplitPairs(s)| {
      var r := SplitPairsTail(s, j);
      FirstPieceTrimmed(r);
    } else if 1 < j < |SplitPairs(s)| {
      LaterPieceTrimmed(s, j);
    }
  }

  /** The inductive step of `SplitPairsTrimmed`: piece `j` is piece `j - 1` of the rest. */
  lemma {:induction false} LaterPieceTrimmed(s: string, j: nat)
    requires 1 < j < |SplitPairs(s)|
    ensures Trimmed(SplitPairs(s)[j])
    decreases j, 0
  {
    var r := SplitPairsTail(s, j);
    SplitPairsTrimmed(r, j - 1);
  }

  /** Piece `j` is piece `j - 1` of what follows the first `;` and its whitespace. */
  lemma SplitPairsTail(s: string, j: nat) returns (r: string)
    requires 0 < j < |SplitPairs(s)|
    ensures Trimmed(r)
    ensures j - 1 < |SplitPairs(r)| && SplitPairs(s)[j] == SplitPairs(r)[j - 1]
  {
    var head;
    head, r := SplitPairsUnfold(s);
    ConsIndex(SplitPairs(s), head, SplitPairs(r), j);
  }

  lemma ConsIndex(xs: seq<string>, head: string, tail: seq<string>, j: nat)
    requires xs == [head] + tail && 0 < j < |xs|
    ensures j - 1 < |tail| && xs[j] == tail[j - 1]
  {
  }

  /** At least two pieces: the first, then the split of the trimmed rest. */
  lemma SplitPairsUnfold(s: string) returns (head: string, r: string)
    requires |SplitPairs(s)| > 1
    ensures Trimmed(r)
    ensures SplitPairs(s) == [head] + SplitPairs(r)
  {
    var k := IndexOf(s, ';');
    head, r := s[..k], SkipSpace(s[k + 1..]);
  }

  /** The pieces put back together with a `;` between each two. */
  function Join(pieces: seq<string>): string
  {
    if |pieces| <= 1 then (if pieces == [] then [] else pieces[0])
    else pieces[0] + [';'] + Join(pieces[1..])
  }

  /**
   * An independent reading of `split(/;\s*\/)`: one scan over the characters
   * that keeps every `;` and drops the whitespace run that follows it;
   * `afterSeparator` says whether the scan is still inside such a run.
   */
  function CollapseFrom(s: string, afterSeparator: bool): string
  {
    if s == [] then []
    else if afterSeparator && IsSpace(s[0]) then CollapseFrom(s[1..], true)
    else if s[0] == ';' then [';'] + CollapseFrom(s[1..], true)
    else [s[0]] + CollapseFrom(s[1..], false)
  }

  function Collapse(s: string): string
  {
    CollapseFrom(s, false)
  }

  /**
   * The contents of every piece: joined back with `;`, the pieces give the
   * cookie string without the whitespace after each `;`. With no piece
   * holding a `;`, this fixes each piece.
   */
  lemma {:induction false} SplitPairsJoin(s: string)
    ensures Join(SplitPairs(s)) == Collapse(s)
    decreases |s|
  {
    var k := IndexOf(s, ';');
    if k < 0 {
      assert SplitPairs(s) == [s];
      CollapsePlain(s);
    } else {
      var t := s[k + 1..];
      var r := SkipSpace(t);
      SplitPairsAt(s, k);
      SplitPairsJoin(r);
      JoinCons(s[..k], SplitPairs(r));
      CollapseBefore(s, k);
      CollapseSkip(t);
    }
  }

  lemma SplitPairsAt(s: string, k: int)
    requires k == IndexOf(s, ';') && k >= 0
    ensures SplitPairs(s) == [s[..k]] + SplitPairs(SkipSpace(s[k + 1..]))
  {
  }

  lemma JoinCons(head: string, rest: seq<string>)
    requires |rest| >= 1
    ensures Join([head] + rest) == head + [';'] + Join(rest)
  {
    assert ([head] + rest)[1..] == rest;
  }

  /** Text without `;` scans to itself. */
  lemma {:induction false} CollapsePlain(s: string)
    requires ';' !in s
    ensures CollapseFrom(s, false) == s
    decreases |s|
  {
    if s != [] {
      assert ';' !in s[1..] by { assert forall i :: 0 <= i < |s| - 1 ==> s[1..][i] == s[i + 1]; }
      CollapsePlain(s[1..]);
    }
  }

  /** The scan copies the text before the first `;`, then the `;`, then skips whitespace. */
  lemma {:induction false} CollapseBefore(s: string, k: nat)
    requires k < |s| && s[k] == ';' && ';' !in s[..k]
    ensures CollapseFrom(s, false) == s[..k] + [';'] + CollapseFrom(s[k + 1..], true)
    decreases k
  {
    if k > 0 {
      assert s[0] != ';' by { assert s[..k][0] == s[0]; }
      var u := s[1..];
      assert u[k - 1] == ';';
      assert u[..k - 1] == s[..k][1..];
      CollapseBefore(u, k - 1);
      assert u[k..] == s[k + 1..];
      assert s[..k] == [s[0]] + u[..k - 1];
    }
  }

  /** Skipping the whitespace run first changes nothing in the scan. */
  lemma {:induction false} CollapseSkip(t: string)
    ensures CollapseFrom(t, true) == CollapseFrom(SkipSpace(t), false)
    decreases |t|
  {
    if t != [] && IsSpace(t[0]) {
      CollapseSkip(t[1..]);
    }
  }

  /** A text that starts with a non-space has a first piece that does too, or an empty one. */
  lemma FirstPieceTrimmed(r: string)
    requires Trimmed(r)
    ensures Trimmed(SplitPairs(r)[0])
  {
    var k := IndexOf(r, ';');
    if k > 0 {
      assert SplitPairs(r)[0][0] == r[0];
    }
  }

  /** `split` gives one piece more than there are `;` in the string. */
  lemma {:induction false} SplitPairsCount(s: string)
    ensures |SplitPairs(s)| == multiset(s)[';'] + 1
    decreases |s|
  {
    var i := IndexOf(s, ';');
    if i < 0 {
      NoSeparator(s);
    } else {
      var rest := SkipSpace(s[i + 1..]);
      assert SplitPairs(s) == [s[..i]] + SplitPairs(rest);
      SeparatorCount(s, i);
      SplitPairsCount(rest);
    }
  }

  lemma NoSeparator(s: string)
    requires ';' !in s
    ensures multiset(s)[';'] == 0
  {
  }

  /** Splitting at the first `;` and dropping the whitespace after it leaves one `;` fewer. */
  lemma SeparatorCount(s: string, i: nat)
    requires i < |s| && s[i] == ';' && ';' !in s[..i]
    ensures multiset(s)[';'] == 1 + multiset(SkipSpace(s[i + 1..]))[';']
  {
    var before, after := s[..i], s[i + 1..];
    assert s == before + [';'] + after;
    assert multiset(s) == multiset(before) + multiset([';']) + multiset(after);
    NoSeparator(before);
    SkipSpaceKeepsSeparators(after);
  }

  /** The whitespace `\s*` consumes holds no `;`. */
  lemma SkipSpaceKeepsSeparators(s: string)
    ensures multiset(SkipSpace(s))[';'] == multiset(s)[';']
  {
    var r := SkipSpace(s);
    var spaces := s[..|s| - |r|];
    assert s == spaces + r;
    assert multiset(s) == multiset(spaces) + multiset(r);
    assert ';' !in spaces by {
      forall j | 0 <= j < |spaces| ensures spaces[j] != ';' {
        assert IsSpace(spaces[j]);
      }
    }
    NoSeparator(spaces);
  }

  /**
   * The callback `getCookie` passes to `forEach`: nothing for an empty piece;
   * otherwise the text before the first `=` is compared with `name` (when
   * there is no `=` that text is empty, since `substring(0, -1)` is empty)
   * and on a match the text after it is the value.
   */
  function PairValue(name: string, pair: string): Option<string>
  {
    if pair == [] then None
    else
      var sep := IndexOf(pair, '=');
      var testName := if sep < 0 then [] else pair[..sep];
      if testName == name then Some(pair[sep + 1..]) else None
  }

  /**
   * The text `getCookie(name)` finds in the cookie string: the value of the
   * first matching pair, or None when no pair matches or that value is empty.
   */
  function CookieText(name: string, cookie: string): Option<string>
  {
    var found := Helper.FirstResult(SplitPairs(cookie), (p: string) => PairValue(name, p));
    if found.None? || found.value == [] then None else found
  }

  /** `getCookie(name)`, decoding with the corrected `Unescape` (see Findings): None is `false`. */
  function GetCookie(name: string, cookie: string): Option<string>
  {
    var t := CookieText(name, cookie);
    if t.None? then None else Some(Unescape(t.value))
  }

  /** `getCookie(name)` as written, decoding with the chained replaces. */
  function GetCookieAsWritten(name: string, cookie: string): Option<string>
  {
    var t := CookieText(name, cookie);
    if t.None? then None else Some(UnescapeChained(t.value))
  }

  /** The cookie medium's `read` as written, on a jar that may never have been set. */
  function ReadAsWritten(name: string, jar: Option<string>): Option<string>
  {
    if jar.None? then None else GetCookieAsWritten(name, jar.value)
  }

  /** The first matching pair decides the lookup, whatever follows it. */
  lemma GetCookieFirstMatch(name: string, cookie: string, i: nat)
    requires i < |SplitPairs(cookie)|
    requires PairValue(name, SplitPairs(cookie)[i]).Some?
    requires forall j :: 0 <= j < i ==> PairValue(name, SplitPairs(cookie)[j]).None?
    ensures var v := PairValue(name, SplitPairs(cookie)[i]).value;
            && GetCookie(name, cookie) == (if v == [] then None else Some(Unescape(v)))
            && GetCookieAsWritten(name, cookie) == (if v == [] then None else Some(UnescapeChained(v)))
  {
    Helper.FirstResultAt(SplitPairs(cookie), (p: string) => PairValue(name, p), i);
  }

  /** Without a matching pair the lookup is None. */
  lemma GetCookieNoMatch(name: string, cookie: string)
    requires forall j :: 0 <= j < |SplitPairs(cookie)| ==> PairValue(name, SplitPairs(cookie)[j]).None?
    ensures GetCookie(name, cookie) == None && GetCookieAsWritten(name, cookie) == None
  {
    var f := (p: string) => PairValue(name, p);
    assert forall j :: 0 <= j < |SplitPairs(cookie)| ==> f(SplitPairs(cookie)[j]).None?;
  }

  /** A string without `;` is one piece. */
  lemma SplitSingle(s: string)
    requires ';' !in s
    ensures SplitPairs(s) == [s]
  {
  }

  /** In the cookie string `setCookie` writes, the lookup finds the escaped value (None when it is empty). */
  lemma SetThenText(name: string, value: string)
    requires '=' !in name && ';' !in name
    requires SetCookie(name, value).Ok?
    ensures CookieText(name, SetCookie(name, value).value) == if value == [] then None else Some(Escape(value))
  {
    var e := Escape(value);
    var cs := name + "=" + e;
    EscapeIsSafe(value);
    EscapeLength(value);
    assert ';' !in cs by {
      forall k | 0 <= k < |cs| ensures cs[k] != ';' {
        if k < |name| { assert cs[k] == name[k]; }
        else if k > |name| { assert cs[k] == e[k - |name| - 1]; }
      }
    }
    SplitSingle(cs);
    var sep := IndexOf(cs, '=');
    assert cs[|name|] == '=';
    assert sep >= 0;
    assert sep == |name|;
    assert cs[..sep] == name;
    assert cs[sep + 1..] == e;
    assert PairValue(name, cs) == Some(e);
    Helper.FirstResultAt([cs], (p: string) => PairValue(name, p), 0);
  }

  /**
   * What `setCookie` writes, the corrected `getCookie` reads back: the value
   * itself, or None when the value is empty (an empty value reads as "no cookie").
   */
  lemma SetThenGet(name: string, value: string)
    requires '=' !in name && ';' !in name
    requires SetCookie(name, value).Ok?
    ensures GetCookie(name, SetCookie(name, value).value) == if value == [] then None else Some(value)
  {
    SetThenText(name, value);
    RoundTrip(value);
  }

  /** As written, `getCookie` reads back what `setCookie` wrote only for values with no `%` before `S` or `Q`. */
  lemma SetThenGetAsWritten(name: string, value: string)
    requires '=' !in name && ';' !in name
    requires SetCookie(name, value).Ok?
    ensures GetCookieAsWritten(name, SetCookie(name, value).value) == if value == [] then None else Some(UnescapeChained(Escape(value)))
    ensures NoMarker(value) ==> GetCookieAsWritten(name, SetCookie(name, value).value) == if value == [] then None else Some(value)
  {
    SetThenText(name, value);
    if NoMarker(value) {
      ChainedRoundTrip(value);
    }
  }

  /** As written, storing `%Q` in a cookie reads back as `%"`. */
  lemma SetThenGetAsWrittenFails(name: string)
    requires '=' !in name && ';' !in name && |name| <= 100
    ensures SetCookie(name, "%Q").Ok?
    ensures GetCookieAsWritten(name, SetCookie(name, "%Q").value) == Some("%\"")
  {
    ChainedRoundTripFails();
    SetThenGetAsWritten(name, "%Q");
  }
}
