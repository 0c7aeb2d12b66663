/**
 * Removing trailing commas without touching string literals: literals are taken
 * out into a side table, the commas are dropped, and the literals put back.
 */
module TrailingCommas {
  import opened Prelude
  import J = JsonScanner

  const NUL: char := 0 as char

  /** The characters of the regex class `\s`. */
  predicate IsSpace(c: char) {
    || c == '\t' || c == '\n' || c == 11 as char || c == 12 as char || c == '\r' || c == ' '
    || c == '\U{00A0}' || c == '\U{1680}' || '\U{2000}' <= c <= '\U{200A}' || c == '\U{2028}' || c == '\U{2029}'
    || c == '\U{202F}' || c == '\U{205F}' || c == '\U{3000}' || c == '\U{FEFF}'
  }

  /** The characters that `.` does not match. */
  predicate IsLineTerminator(c: char) {
    c == '\n' || c == '\r' || c == '\U{2028}' || c == '\U{2029}'
  }

  predicate IsCloser(c: char) {
    c == '}' || c == ']'
  }

  // ----- the three regular expressions

  /** Where a string literal ends whose content is matched from `j` on: `(?:[^"\\]|\\.)*"`. */
  function StringEnd(s: string, j: nat): (r: Option<nat>)
    ensures r.Some? ==> j < r.value <= |s|
    decreases |s| - j
  {
    if j >= |s| then None
    else if s[j] == '"' then Some(j + 1)
    else if s[j] == '\\' then
      if j + 1 < |s| && !IsLineTerminator(s[j + 1]) then StringEnd(s, j + 2) else None
    else StringEnd(s, j + 1)
  }

  /** The end of the string literal that starts the text, if one does. */
  function LiteralEnd(s: string): (r: Option<nat>)
    ensures r.Some? ==> 1 < r.value <= |s|
  {
    if s != "" && s[0] == '"' then StringEnd(s, 1) else None
  }

  /** The character at `k` is escaped, but `.` does not match it. */
  predicate EscapedTerminator(s: string, k: nat)
    requires k < |s|
  {
    J.ScanOf(s[..k]).escaped && IsLineTerminator(s[k])
  }

  /** From `j` on the text is inside a string up to `e`, where the string closes, and no escape fails to match. */
  ghost predicate ClosesAt(s: string, j: nat, e: nat) {
    && j < e <= |s| && !J.ScanOf(s[..e]).inString
    && forall k :: j <= k < e ==> J.ScanOf(s[..k]).inString && !EscapedTerminator(s, k)
  }

  lemma ScanStep(s: string, k: nat)
    requires k < |s|
    ensures J.ScanOf(s[..k + 1]) == J.Next(J.ScanOf(s[..k]), s[k])
  {
    J.ScanAppend(s[..k], s[k]);
    assert s[..k + 1] == s[..k] + [s[k]];
  }

  lemma {:induction false} StringEndIff(s: string, j: nat, e: nat)
    requires j <= |s| && J.ScanOf(s[..j]) == J.Scan(true, false)
    ensures StringEnd(s, j) == Some(e) <==> ClosesAt(s, j, e)
    decreases |s| - j
  {
    hide J.ScanOf, IsLineTerminator;
    if j < |s| {
      ScanStep(s, j);
      if s[j] == '\\' && j + 1 < |s| {
        ScanStep(s, j + 1);
        StringEndIff(s, j + 2, e);
      } else if s[j] != '"' && s[j] != '\\' {
        StringEndIff(s, j + 1, e);
      }
    }
  }

  /** The regular expression finds the string that the scanner of the other two passes sees, whole. */
  lemma LiteralEndIff(s: string, e: nat)
    requires s != "" && s[0] == '"'
    ensures LiteralEnd(s) == Some(e) <==> ClosesAt(s, 1, e)
  {
    ScanStep(s, 0);
    StringEndIff(s, 1, e);
  }

  /** The end of the match of `\s*[}\]]` at the start of the text. */
  function CloserEnd(t: string): (r: Option<nat>)
    ensures r.Some? ==> 0 < r.value <= |t| && forall k :: 0 <= k < r.value ==> IsSpace(t[k]) || IsCloser(t[k])
  {
    if t == "" then None
    else if IsCloser(t[0]) then Some(1)
    else if IsSpace(t[0]) then
      match CloserEnd(t[1..])
      case None => None
      case Some(e) => Some(e + 1)
    else None
  }

  /** `replace(/,(\s*[}\]])/g, '$1')`: the search goes on after each match. */
  function ReplaceCommas(t: string): string
    decreases |t|
  {
    if t == "" then ""
    else if t[0] == ',' && CloserEnd(t[1..]).Some? then
      var e := CloserEnd(t[1..]).value;
      t[1..][..e] + ReplaceCommas(t[1..][e..])
    else [t[0]] + ReplaceCommas(t[1..])
  }

  function Placeholder(n: nat): string {
    [NUL] + "STR" + Decimal(n) + [NUL]
  }

  function DigitsEnd(t: string, j: nat): (e: nat)
    requires j <= |t|
    ensures j <= e <= |t| && forall k :: j <= k < e ==> IsDigit(t[k])
    ensures e < |t| ==> !IsDigit(t[e])
    decreases |t| - j
  {
    if j < |t| && IsDigit(t[j]) then DigitsEnd(t, j + 1) else j
  }

  /** A placeholder at the start of the text: its index and its length. */
  function MatchPlaceholder(t: string): (r: Option<(nat, nat)>)
    ensures r.Some? ==> 0 < r.value.1 <= |t|
  {
    if |t| >= 4 && t[0] == NUL && t[1] == 'S' && t[2] == 'T' && t[3] == 'R' then
      var e := DigitsEnd(t, 4);
      if 4 < e < |t| && t[e] == NUL then Some((ParseInt(t[4..e]), e + 1)) else None
    else None
  }

  /** `replace(/\0STR(\d+)\0/g, …)`: placeholders are looked up, an unknown index gives the empty string. */
  function Restore(t: string, strings: seq<string>): string
    decreases |t|
  {
    if t == "" then ""
    else match MatchPlaceholder(t)
      case Some((index, end)) => (if index < |strings| then strings[index] else "") + Restore(t[end..], strings)
      case None => [t[0]] + Restore(t[1..], strings)
  }

  // ----- the pipeline

  datatype Token = Plain(c: char) | Literal(text: string)

  function Tokenize(s: string): seq<Token>
    decreases |s|
  {
    if s == "" then []
    else match LiteralEnd(s)
      case Some(e) => [Literal(s[..e])] + Tokenize(s[e..])
      case None => [Plain(s[0])] + Tokenize(s[1..])
  }

  /** The text with the `k`-th literal replaced by placeholder `n + k`. */
  function Render(tokens: seq<Token>, n: nat): string {
    if tokens == [] then ""
    else match tokens[0]
      case Plain(c) => [c] + Render(tokens[1..], n)
      case Literal(_) => Placeholder(n) + Render(tokens[1..], n + 1)
  }

  function Literals(tokens: seq<Token>): seq<string> {
    if tokens == [] then []
    else match tokens[0]
      case Plain(_) => Literals(tokens[1..])
      case Literal(text) => [text] + Literals(tokens[1..])
  }

  function Text(tokens: seq<Token>): string {
    if tokens == [] then ""
    else match tokens[0]
      case Plain(c) => [c] + Text(tokens[1..])
      case Literal(text) => text + Text(tokens[1..])
  }

  /** What the extraction, the replacement and the restoration make of a text. */
  function Pipeline(s: string): string {
    var tokens := Tokenize(s);
    var cleaned := ReplaceCommas(Render(tokens, 0));
    if Literals(tokens) == [] then cleaned else Restore(cleaned, Literals(tokens))
  }

  function Mark(token: Token, n: nat): string {
    if token.Plain? then [token.c] else Placeholder(n)
  }

  lemma RenderFirst(token: Token, rest: seq<Token>, n: nat)
    ensures Render([token] + rest, n) == Mark(token, n) + Render(rest, if token.Plain? then n else n + 1)
    ensures Literals([token] + rest) == (if token.Plain? then [] else [token.text]) + Literals(rest)
  {
    assert ([token] + rest)[1..] == rest;
  }

  lemma {:induction false} RenderAppend(a: seq<Token>, b: seq<Token>, n: nat)
    ensures Render(a + b, n) == Render(a, n) + Render(b, n + |Literals(a)|)
    ensures Literals(a + b) == Literals(a) + Literals(b)
  {
    hide Render, Literals, Mark;
    if a == [] {
      RenderNothing(n);
      assert a + b == b;
    } else {
      RenderAppendStep(a[0], a[1..], b, n);
      RenderAppend(a[1..], b, if a[0].Plain? then n else n + 1);
      assert a == [a[0]] + a[1..];
    }
  }

  lemma RenderNothing(n: nat)
    ensures Render([], n) == "" && Literals([]) == []
  {
  }

  lemma RenderAppendStep(token: Token, rest: seq<Token>, b: seq<Token>, n: nat)
    ensures var m := if token.Plain? then n else n + 1;
            && Render([token] + rest, n) == Mark(token, n) + Render(rest, m)
            && Render([token] + rest + b, n) == Mark(token, n) + Render(rest + b, m)
    ensures var text := if token.Plain? then [] else [token.text];
            Literals([token] + rest) == text + Literals(rest) &&
              Literals([token] + rest + b) == text + Literals(rest + b)
  {
    hide Render, Literals, Mark;
    RenderFirst(token, rest, n);
    RenderFirst(token, rest + b, n);
    assert [token] + rest + b == [token] + (rest + b);
  }

  /** Up to `i`, the literals are in the table and everything else, with placeholders, in `stripped`. */
  ghost predicate Extracted(s: string, i: nat, done: seq<Token>, stripped: string, strings: seq<string>) {
    && i <= |s| && Tokenize(s) == done + Tokenize(s[i..])
    && stripped == Render(done, 0) && strings == Literals(done)
  }

  lemma ExtractStart(s: string)
    ensures Extracted(s, 0, [], "", [])
  {
    assert s[0..] == s;
  }

  lemma ExtractEnd(s: string, done: seq<Token>, stripped: string, strings: seq<string>)
    requires Extracted(s, |s|, done, stripped, strings)
    ensures stripped == Render(Tokenize(s), 0) && strings == Literals(Tokenize(s))
  {
    assert done + Tokenize("") == done;
  }

  lemma TokenizeStep(t: string)
    requires t != ""
    ensures match LiteralEnd(t)
            case Some(e) => Tokenize(t) == [Literal(t[..e])] + Tokenize(t[e..])
            case None => Tokenize(t) == [Plain(t[0])] + Tokenize(t[1..])
  {
  }

  lemma ExtractStep(s: string, i: nat, done: seq<Token>, stripped: string, strings: seq<string>, token: Token,
                    width: nat)
    requires Extracted(s, i, done, stripped, strings) && i + width <= |s|
    requires Tokenize(s[i..]) == [token] + Tokenize(s[i..][width..])
    ensures token.Plain? ==> Extracted(s, i + width, done + [token], stripped + [token.c], strings)
    ensures token.Literal? ==> Extracted(s, i + width, done + [token], stripped + Placeholder(|strings|),
            strings + [token.text])
  {
    assert s[i..][width..] == s[i + width..];
    assert done + ([token] + Tokenize(s[i + width..])) == done + [token] + Tokenize(s[i + width..]);
    RenderAppend(done, [token], 0);
    if token.Plain? {
      assert Render([token], |strings|) == [token.c] && Literals([token]) == [];
    } else {
      assert Render([token], |strings|) == Placeholder(|strings|) && Literals([token]) == [token.text];
    }
  }

  method RemoveTrailingCommasSafe(s: string) returns (r: string)
    ensures r == Pipeline(s)
  {
    hide Tokenize, Render, Literals, LiteralEnd, ReplaceCommas, Restore, Placeholder;
    var strings: seq<string> := [];
    var stripped := "";
    var i := 0;
    ghost var done: seq<Token> := [];
    ExtractStart(s);
    while i < |s|
      invariant Extracted(s, i, done, stripped, strings)
      decreases |s| - i
    {
      var end := LiteralEnd(s[i..]);
      TokenizeStep(s[i..]);
      if end.Some? {
        var literal := s[i..][..end.value];
        ExtractStep(s, i, done, stripped, strings, Literal(literal), end.value);
        stripped := stripped + Placeholder(|strings|);
        strings := strings + [literal];
        done := done + [Literal(literal)];
        i := i + end.value;
      } else {
        ExtractStep(s, i, done, stripped, strings, Plain(s[i]), 1);
        stripped := stripped + [s[i]];
        done := done + [Plain(s[i])];
        i := i + 1;
      }
    }
    ExtractEnd(s, done, stripped, strings);
    var cleaned := ReplaceCommas(stripped);
    if |strings| == 0 {
      return cleaned;
    }
    r := Restore(cleaned, strings);
  }

  // ----- the one-pass meaning

  /**
   * A comma whose next non-whitespace character is a closer, outside string literals, is
   * dropped; all else is copied.
   */
  function OnePass(s: string): string
    decreases |s|
  {
    if s == "" then ""
    else match LiteralEnd(s)
      case Some(e) => s[..e] + OnePass(s[e..])
      case None =>
        if s[0] == ',' && CloserEnd(s[1..]).Some? then OnePass(s[1..]) else [s[0]] + OnePass(s[1..])
  }

  /** The same on the text without literals. */
  function DropCommas(t: string): string {
    if t == "" then ""
    else if t[0] == ',' && CloserEnd(t[1..]).Some? then DropCommas(t[1..])
    else [t[0]] + DropCommas(t[1..])
  }

  /** And on tokens. */
  function DropTokens(tokens: seq<Token>): seq<Token> {
    if tokens == [] then []
    else if tokens[0] == Plain(',') && ClosesNext(tokens[1..]) then DropTokens(tokens[1..])
    else [tokens[0]] + DropTokens(tokens[1..])
  }

  predicate ClosesNext(tokens: seq<Token>) {
    tokens != [] && match tokens[0]
      case Literal(_) => false
      case Plain(c) => IsCloser(c) || (IsSpace(c) && ClosesNext(tokens[1..]))
  }

  lemma {:induction false} DropCommasPrefix(p: string, t: string)
    requires forall k :: 0 <= k < |p| ==> p[k] != ','
    ensures DropCommas(p + t) == p + DropCommas(t)
  {
    if p == "" {
      assert p + t == t;
    } else {
      assert (p + t)[1..] == p[1..] + t;
      DropCommasPrefix(p[1..], t);
    }
  }

  /** Skipping a whole match at once drops the same commas: there is none inside a match. */
  lemma {:induction false} ReplaceIsDrop(t: string)
    ensures ReplaceCommas(t) == DropCommas(t)
    decreases |t|
  {
    if t != "" {
      if t[0] == ',' && CloserEnd(t[1..]).Some? {
        var e := CloserEnd(t[1..]).value;
        ReplaceIsDrop(t[1..][e..]);
        assert t[1..] == t[1..][..e] + t[1..][e..];
        DropCommasPrefix(t[1..][..e], t[1..][e..]);
      } else {
        ReplaceIsDrop(t[1..]);
      }
    }
  }

  lemma {:induction false} CloserInRender(tokens: seq<Token>, n: nat)
    ensures CloserEnd(Render(tokens, n)).Some? <==> ClosesNext(tokens)
  {
    if tokens != [] {
      match tokens[0]
      case Plain(c) =>
        assert Render(tokens, n)[1..] == Render(tokens[1..], n);
        CloserInRender(tokens[1..], n);
      case Literal(_) =>
        assert Render(tokens, n)[0] == NUL;
    }
  }

  lemma {:induction false} DropInRender(tokens: seq<Token>, n: nat)
    ensures DropCommas(Render(tokens, n)) == Render(DropTokens(tokens), n)
  {
    if tokens != [] {
      match tokens[0]
      case Plain(c) =>
        assert Render(tokens, n)[1..] == Render(tokens[1..], n);
        CloserInRender(tokens[1..], n);
        DropInRender(tokens[1..], n);
      case Literal(text) =>
        DropCommasPrefix(Placeholder(n), Render(tokens[1..], n + 1));
        DropInRender(tokens[1..], n + 1);
        assert DropTokens(tokens)[1..] == DropTokens(tokens[1..]);
    }
  }

  lemma {:induction false} CloserInTokens(s: string)
    ensures CloserEnd(s).Some? <==> ClosesNext(Tokenize(s))
    decreases |s|
  {
    if s != "" {
      if LiteralEnd(s) == None {
        assert Tokenize(s)[1..] == Tokenize(s[1..]);
        CloserInTokens(s[1..]);
      }
    }
  }

  lemma {:induction false} OnePassByTokens(s: string)
    ensures OnePass(s) == Text(DropTokens(Tokenize(s)))
    decreases |s|
  {
    if s != "" {
      match LiteralEnd(s)
      case Some(e) =>
        assert Tokenize(s)[1..] == Tokenize(s[e..]);
        OnePassByTokens(s[e..]);
      case None =>
        assert Tokenize(s)[1..] == Tokenize(s[1..]);
        CloserInTokens(s[1..]);
        OnePassByTokens(s[1..]);
    }
  }

  /** Dropping commas keeps every literal, in order and unchanged. */
  lemma {:induction false} LiteralsSurvive(tokens: seq<Token>)
    ensures Literals(DropTokens(tokens)) == Literals(tokens)
  {
    if tokens != [] {
      LiteralsSurvive(tokens[1..]);
    }
  }

  lemma {:induction false} DigitsEndAt(t: string, j: nat, e: nat)
    requires j <= e < |t| && !IsDigit(t[e])
    requires forall k :: j <= k < e ==> IsDigit(t[k])
    ensures DigitsEnd(t, j) == e
    decreases e - j
  {
    if j < e {
      DigitsEndAt(t, j + 1, e);
    }
  }

  /** A placeholder is read back whole, whatever follows it. */
  lemma PlaceholderMatches(n: nat, t: string)
    ensures MatchPlaceholder(Placeholder(n) + t) == Some((n, |Placeholder(n)|))
  {
    var p := Placeholder(n) + t;
    var e := 4 + |Decimal(n)|;
    assert p[0] == NUL && p[1] == 'S' && p[2] == 'T' && p[3] == 'R';
    assert p[4..e] == Decimal(n) && p[e] == NUL;
    forall k | 4 <= k < e
      ensures IsDigit(p[k])
    {
      assert p[k] == Decimal(n)[k - 4];
    }
    DigitsEndAt(p, 4, e);
    ParseDecimal(n);
  }

  predicate NulFree(tokens: seq<Token>) {
    forall k :: 0 <= k < |tokens| && tokens[k].Plain? ==> tokens[k].c != NUL
  }

  /** Restoring a rendered text from the table its literals start at gives the text back. */
  lemma {:induction false} RestoreRender(tokens: seq<Token>, n: nat, strings: seq<string>)
    requires NulFree(tokens)
    requires n + |Literals(tokens)| == |strings| && strings[n..] == Literals(tokens)
    ensures Restore(Render(tokens, n), strings) == Text(tokens)
  {
    if tokens != [] {
      match tokens[0]
      case Plain(c) =>
        assert tokens[0].c != NUL;
        assert Render(tokens, n)[1..] == Render(tokens[1..], n);
        RestoreRender(tokens[1..], n, strings);
      case Literal(text) =>
        var rest := Render(tokens[1..], n + 1);
        PlaceholderMatches(n, rest);
        assert (Placeholder(n) + rest)[|Placeholder(n)|..] == rest;
        assert strings[n] == strings[n..][0] == text;
        assert strings[n + 1..] == strings[n..][1..];
        RestoreRender(tokens[1..], n + 1, strings);
    }
  }

  lemma {:induction false} RenderWithoutLiterals(tokens: seq<Token>, n: nat)
    requires Literals(tokens) == []
    ensures Render(tokens, n) == Text(tokens)
  {
    if tokens != [] {
      RenderWithoutLiterals(tokens[1..], n);
    }
  }

  lemma {:induction false} TokensNulFree(s: string)
    requires forall k :: 0 <= k < |s| ==> s[k] != NUL
    ensures NulFree(Tokenize(s))
    decreases |s|
  {
    if s != "" {
      match LiteralEnd(s)
      case Some(e) =>
        TokensNulFree(s[e..]);
      case None =>
        TokensNulFree(s[1..]);
    }
  }

  lemma {:induction false} DropKeepsNulFree(tokens: seq<Token>)
    requires NulFree(tokens)
    ensures NulFree(DropTokens(tokens))
  {
    if tokens != [] {
      DropKeepsNulFree(tokens[1..]);
    }
  }

  /**
   * On text without string literals, or without NUL characters outside them, the
   * three-stage pipeline is the one-pass scanner.
   */
  lemma PipelineIsOnePass(s: string)
    requires Literals(Tokenize(s)) == [] || NulFree(Tokenize(s))
    ensures Pipeline(s) == OnePass(s)
  {
    var tokens := Tokenize(s);
    ReplaceIsDrop(Render(tokens, 0));
    DropInRender(tokens, 0);
    OnePassByTokens(s);
    LiteralsSurvive(tokens);
    if Literals(tokens) == [] {
      RenderWithoutLiterals(DropTokens(tokens), 0);
    } else {
      DropKeepsNulFree(tokens);
      assert Literals(tokens)[0..] == Literals(tokens);
      RestoreRender(DropTokens(tokens), 0, Literals(tokens));
    }
  }

  /** In particular on any text without NUL characters, such as every JSON document. */
  lemma NulFreeIsOnePass(s: string)
    requires forall k :: 0 <= k < |s| ==> s[k] != NUL
    ensures Pipeline(s) == OnePass(s)
  {
    TokensNulFree(s);
    PipelineIsOnePass(s);
  }

  // ----- is one pass enough?

  /** The next token that is not whitespace is a comma that will be dropped. */
  predicate DroppedNext(tokens: seq<Token>) {
    tokens != [] && match tokens[0]
      case Literal(_) => false
      case Plain(c) => if c == ',' then ClosesNext(tokens[1..]) else IsSpace(c) && DroppedNext(tokens[1..])
  }

  /** Some comma is followed, over whitespace, by a comma that will be dropped: `,,]`. */
  predicate StackedCommas(tokens: seq<Token>) {
    tokens != [] && ((tokens[0] == Plain(',') && DroppedNext(tokens[1..])) || StackedCommas(tokens[1..]))
  }

  lemma {:induction false} ClosesNextAfterDrop(tokens: seq<Token>)
    ensures ClosesNext(DropTokens(tokens)) <==> ClosesNext(tokens) || DroppedNext(tokens)
  {
    if tokens != [] {
      ClosesNextAfterDrop(tokens[1..]);
      assert ([tokens[0]] + DropTokens(tokens[1..]))[1..] == DropTokens(tokens[1..]);
    }
  }

  /** A trailing comma is left behind exactly when two were stacked. */
  lemma {:induction false} DropIsCompleteIff(tokens: seq<Token>)
    ensures DropTokens(DropTokens(tokens)) == DropTokens(tokens) <==> !StackedCommas(tokens)
    ensures |DropTokens(tokens)| <= |tokens|
  {
    if tokens != [] {
      var rest := tokens[1..];
      DropIsCompleteIff(rest);
      DropShrinks(DropTokens(rest));
      ClosesNextAfterDrop(rest);
      assert ([tokens[0]] + DropTokens(rest))[1..] == DropTokens(rest);
      if tokens[0] == Plain(',') && ClosesNext(rest) {
        NotBoth(rest);
      } else if DropTokens(tokens) == [tokens[0]] + DropTokens(rest) &&
        !(tokens[0] == Plain(',') && DroppedNext(rest)) {
        assert DropTokens(DropTokens(tokens)) == [tokens[0]] + DropTokens(DropTokens(rest));
      }
    }
  }

  lemma {:induction false} DropShrinks(tokens: seq<Token>)
    ensures |DropTokens(tokens)| <= |tokens|
  {
    if tokens != [] {
      DropShrinks(tokens[1..]);
    }
  }

  lemma {:induction false} NotBoth(tokens: seq<Token>)
    ensures !(ClosesNext(tokens) && DroppedNext(tokens))
  {
    if tokens != [] {
      NotBoth(tokens[1..]);
    }
  }

  // ----- the same about texts

  /** `u` is `t` with some commas left out that stand before a closer. */
  ghost predicate Thins(t: string, u: string)
    decreases |t|
  {
    if t == "" then u == ""
    else
      || (u != "" && t[0] == u[0] && Thins(t[1..], u[1..]))
      || (t[0] == ',' && CloserEnd(t[1..]).Some? && Thins(t[1..], u))
  }

  lemma {:induction false} ThinsPrefix(p: string, t: string, u: string)
    requires Thins(t, u)
    ensures Thins(p + t, p + u)
  {
    if p == "" {
      assert p + t == t && p + u == u;
    } else {
      ThinsPrefix(p[1..], t, u);
      assert (p + t)[1..] == p[1..] + t && (p + u)[1..] == p[1..] + u;
    }
  }

  lemma {:induction false} OnePassThins(s: string)
    ensures Thins(s, OnePass(s))
    decreases |s|
  {
    if s != "" {
      match LiteralEnd(s)
      case Some(e) =>
        OnePassThins(s[e..]);
        ThinsPrefix(s[..e], s[e..], OnePass(s[e..]));
        assert s == s[..e] + s[e..];
      case None =>
        OnePassThins(s[1..]);
        assert ([s[0]] + OnePass(s[1..]))[1..] == OnePass(s[1..]);
    }
  }

  lemma {:induction false} StringEndShift(s: string, i: nat, j: nat)
    requires i + j <= |s|
    ensures StringEnd(s, i + j) == match StringEnd(s[i..], j) case None => None case Some(e) => Some(i + e)
    decreases |s| - j
  {
    if i + j < |s| {
      assert s[i..][j] == s[i + j];
      if s[i + j] == '\\' && i + j + 1 < |s| {
        assert s[i..][j + 1] == s[i + j + 1];
        StringEndShift(s, i, j + 2);
      } else if s[i + j] != '"' && s[i + j] != '\\' {
        StringEndShift(s, i, j + 1);
      }
    }
  }

  /** What comes after the closing quote does not matter. */
  lemma {:induction false} StringEndPrefix(s: string, j: nat, rest: string)
    requires j <= |s| && StringEnd(s, j).Some?
    ensures var e := StringEnd(s, j).value;
            StringEnd(s[..e] + rest, j) == Some(e)
    decreases |s| - j
  {
    var e := StringEnd(s, j).value;
    assert (s[..e] + rest)[j] == s[j];
    if s[j] == '\\' {
      assert (s[..e] + rest)[j + 1] == s[j + 1];
      StringEndPrefix(s, j + 2, rest);
    } else if s[j] != '"' {
      StringEndPrefix(s, j + 1, rest);
    }
  }

  /**
   * A string that is never closed stays so: a comma left out after a backslash makes way
   * for a closer or whitespace.
   */
  lemma {:induction false} StaysOpen(t: string, u: string)
    requires Thins(t, u) && StringEnd(t, 0) == None
    ensures StringEnd(u, 0) == None
    decreases |t|
  {
    if t != "" {
      StringEndShift(t, 1, 0);
      if t[0] == ',' && CloserEnd(t[1..]).Some? && Thins(t[1..], u) {
        StaysOpen(t[1..], u);
      } else if t[0] != '\\' {
        StaysOpen(t[1..], u[1..]);
        StringEndShift(u, 1, 0);
      } else if |t| > 1 {
        StaysOpenEscaped(t, u);
      }
    }
  }

  lemma {:induction false} StaysOpenEscaped(t: string, u: string)
    requires |t| > 1 && u != "" && t[0] == u[0] == '\\' && Thins(t[1..], u[1..]) && StringEnd(t, 0) == None
    ensures StringEnd(u, 0) == None
    decreases |t|, 0
  {
    assert t[1..][1..] == t[2..];
    if !IsLineTerminator(t[1]) {
      StringEndShift(t, 2, 0);
      if t[1] == ',' && CloserEnd(t[2..]).Some? && Thins(t[2..], u[1..]) {
        assert t[2..][0] == t[2] && t[2..][1..] == t[3..];
        assert u[1] == t[2];
        StringEndShift(t, 3, 0);
        if !IsLineTerminator(t[2]) {
          assert u[1..][1..] == u[2..];
          StaysOpen(t[3..], u[2..]);
          StringEndShift(u, 2, 0);
        }
      } else {
        assert u[1..][1..] == u[2..];
        StaysOpen(t[2..], u[2..]);
        StringEndShift(u, 2, 0);
      }
    }
  }

  /**
   * The text that one pass leaves has the tokens that were not dropped: no literal
   * appears, ends elsewhere or is lost.
   */
  lemma {:induction false} TokenizeDropped(s: string)
    ensures Tokenize(OnePass(s)) == DropTokens(Tokenize(s))
    decreases |s|
  {
    if s != "" {
      match LiteralEnd(s)
      case Some(e) =>
        TokenizeDropped(s[e..]);
        StringEndPrefix(s, 1, OnePass(s[e..]));
        TokenizeStep(s);
        TokenizeLiteral(s[..e], OnePass(s[e..]));
      case None =>
        TokenizeDropped(s[1..]);
        TokenizeStep(s);
        CloserInTokens(s[1..]);
        assert ([Plain(s[0])] + Tokenize(s[1..]))[1..] == Tokenize(s[1..]);
        if OnePass(s) == [s[0]] + OnePass(s[1..]) {
          PlainStaysPlain(s);
        }
    }
  }

  lemma TokenizeLiteral(literal: string, rest: string)
    requires LiteralEnd(literal + rest) == Some(|literal|)
    ensures Tokenize(literal + rest) == [Literal(literal)] + Tokenize(rest)
  {
    assert (literal + rest)[..|literal|] == literal && (literal + rest)[|literal|..] == rest;
  }

  lemma PlainStaysPlain(s: string)
    requires s != "" && LiteralEnd(s) == None
    ensures Tokenize([s[0]] + OnePass(s[1..])) == [Plain(s[0])] + Tokenize(OnePass(s[1..]))
  {
    var u := [s[0]] + OnePass(s[1..]);
    assert u[1..] == OnePass(s[1..]);
    if s[0] == '"' {
      StringEndShift(s, 1, 0);
      OnePassThins(s[1..]);
      StaysOpen(s[1..], OnePass(s[1..]));
      StringEndShift(u, 1, 0);
    }
    TokenizeStep(u);
  }

  lemma {:induction false} DroppedText(tokens: seq<Token>)
    ensures |Text(DropTokens(tokens))| + |tokens| == |Text(tokens)| + |DropTokens(tokens)|
  {
    if tokens != [] {
      DroppedText(tokens[1..]);
      assert ([tokens[0]] + DropTokens(tokens[1..]))[1..] == DropTokens(tokens[1..]);
    }
  }

  lemma {:induction false} SameLengthSameTokens(tokens: seq<Token>)
    requires |DropTokens(tokens)| == |tokens|
    ensures DropTokens(tokens) == tokens
  {
    if tokens != [] {
      DropShrinks(tokens[1..]);
      SameLengthSameTokens(tokens[1..]);
    }
  }

  /** A second pass over the text changes nothing exactly when no two trailing commas were stacked. */
  lemma OnePassIsCompleteIff(s: string)
    ensures OnePass(OnePass(s)) == OnePass(s) <==> !StackedCommas(Tokenize(s))
  {
    hide Tokenize, OnePass, Text, DropTokens, StackedCommas;
    var once := DropTokens(Tokenize(s));
    OnePassByTokens(s);
    OnePassByTokens(OnePass(s));
    TokenizeDropped(s);
    DropIsCompleteIff(Tokenize(s));
    DroppedText(once);
    if OnePass(OnePass(s)) == OnePass(s) {
      SameLengthSameTokens(once);
    }
  }

  /** Of two stacked commas the first is left behind as a trailing comma. */
  lemma StackedCommaLeftBehind()
    ensures OnePass("[1,,]") == "[1,]" && OnePass("[1,]") == "[1]"
  {
    assert "[1,,]"[1..] == "1,,]" && "1,,]"[1..] == ",,]" && ",,]"[1..] == ",]" && ",]"[1..] == "]" && "]"[1..] == "";
    assert "[1,]"[1..] == "1,]" && "1,]"[1..] == ",]";
    assert OnePass("]") == "]" && OnePass(",]") == "]";
    assert CloserEnd(",]") == None;
    assert OnePass(",,]") == ",]";
    assert OnePass("1,,]") == "1,]" && OnePass("1,]") == "1]";
  }

  /** A text that already holds a placeholder is restored wrongly: the side table is consulted for it too. */
  lemma NulCanBeMistaken()
    ensures var s := "\"\"" + Placeholder(0);
            Pipeline(s) == "\"\"\"\"" && OnePass(s) == s
  {
    hide Tokenize, Render, Literals, OnePass, ReplaceCommas, Restore, Placeholder;
    var p := Placeholder(0);
    MistakenTokens(p);
    DropCommasPrefix(p + p, "");
    assert p + p + "" == p + p;
    ReplaceIsDrop(p + p);
    RestoredTwice(p, ["\"\""]);
  }

  lemma MistakenTokens(p: string)
    requires p == Placeholder(0)
    ensures p == [NUL, 'S', 'T', 'R', '0', NUL]
    ensures var s := "\"\"" + p;
            Literals(Tokenize(s)) == ["\"\""] && Render(Tokenize(s), 0) == p + p && OnePass(s) == s
  {
    var s := "\"\"" + p;
    assert p == [NUL, 'S', 'T', 'R', '0', NUL];
    assert LiteralEnd(s) == Some(2) && s[..2] == "\"\"" && s[2..] == p;
    PlainText(p);
    var tokens := Tokenize(s);
    assert tokens == [Literal("\"\"")] + Tokenize(p);
    assert tokens[1..] == Tokenize(p);
  }

  lemma RestoredTwice(p: string, strings: seq<string>)
    requires p == Placeholder(0) && strings == ["\"\""]
    ensures Restore(p + p, strings) == "\"\"\"\""
  {
    PlaceholderMatches(0, p);
    PlaceholderMatches(0, "");
    assert p + "" == p && (p + p)[|p|..] == p && p[|p|..] == "";
    assert Restore(p, strings) == strings[0] + Restore("", strings);
    assert Restore(p + p, strings) == strings[0] + Restore(p, strings);
  }

  /** Text without quotes and commas is all plain tokens, and every stage copies it. */
  lemma {:induction false} PlainText(t: string)
    requires forall k :: 0 <= k < |t| ==> t[k] != '"' && t[k] != ','
    ensures Literals(Tokenize(t)) == [] && OnePass(t) == t
    ensures forall n :: Render(Tokenize(t), n) == t
  {
    if t != "" {
      PlainText(t[1..]);
      assert Tokenize(t)[1..] == Tokenize(t[1..]);
    }
  }
}
