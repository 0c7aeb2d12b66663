/**
 * The two character passes of the JSON repair that share a quote/escape scanner:
 * escaping raw control characters inside strings, and adding missing closers.
 */
module JsonScanner {
  import opened Prelude

  /** The scanner state after a prefix of the text. */
  datatype Scan = Scan(inString: bool, escaped: bool)

  const START := Scan(false, false)

  function Next(st: Scan, ch: char): Scan {
    if st.escaped then Scan(st.inString, false)
    else if ch == '\\' then Scan(st.inString, true)
    else if ch == '"' then Scan(!st.inString, false)
    else st
  }

  function ScanOf(s: string): Scan {
    if s == "" then START else Next(ScanOf(s[..|s| - 1]), s[|s| - 1])
  }

  /** How many backslashes the text ends in. */
  function Backslashes(s: string): nat {
    if s == "" || s[|s| - 1] != '\\' then 0 else Backslashes(s[..|s| - 1]) + 1
  }

  /** The quotes that an even number of backslashes precedes. */
  function FreeQuotes(s: string): nat {
    if s == "" then 0
    else
      var init := s[..|s| - 1];
      FreeQuotes(init) + if s[|s| - 1] == '"' && Backslashes(init) % 2 == 0 then 1 else 0
  }

  /**
   * What the scanner knows: the next character is escaped iff an odd number of
   * backslashes precedes it, and stands in a string iff an odd number of free quotes does.
   */
  lemma {:induction false} ScanMeans(s: string)
    ensures ScanOf(s).escaped <==> Backslashes(s) % 2 == 1
    ensures ScanOf(s).inString <==> FreeQuotes(s) % 2 == 1
  {
    if s != "" {
      ScanMeans(s[..|s| - 1]);
    }
  }

  lemma ScanAppend(s: string, ch: char)
    ensures ScanOf(s + [ch]) == Next(ScanOf(s), ch)
  {
    assert (s + [ch])[..|s|] == s;
  }

  // ----- escaping raw control characters

  /** What one character becomes, given the state before it. */
  function EscapeChar(st: Scan, ch: char): string {
    if st.escaped || !st.inString then [ch]
    else if ch == '\n' then "\\n"
    else if ch == '\r' then "\\r"
    else if ch == '\t' then "\\t"
    else [ch]
  }

  function Escaped(s: string): string {
    if s == "" then "" else Escaped(s[..|s| - 1]) + EscapeChar(ScanOf(s[..|s| - 1]), s[|s| - 1])
  }

  method EscapeNewlinesInStrings(s: string) returns (result: string)
    ensures result == Escaped(s)
  {
    result := "";
    var inString, escaped := false, false;
    for i := 0 to |s|
      invariant Scan(inString, escaped) == ScanOf(s[..i])
      invariant result == Escaped(s[..i])
    {
      assert s[..i + 1][..i] == s[..i];
      var ch := s[i];
      if escaped {
        result := result + [ch];
        escaped := false;
      } else if ch == '\\' {
        result := result + [ch];
        escaped := true;
      } else if ch == '"' {
        inString := !inString;
        result := result + [ch];
      } else if inString && ch == '\n' {
        result := result + "\\n";
      } else if inString && ch == '\r' {
        result := result + "\\r";
      } else if inString && ch == '\t' {
        result := result + "\\t";
      } else {
        result := result + [ch];
      }
    }
    assert s[..|s|] == s;
  }

  // ----- what a lenient reader makes of a text

  /** A character outside string contents, or one that a string stands for. */
  datatype Symbol = Mark(ch: char) | Text(ch: char)

  /** What `ch` stands for after a backslash, as far as raw control characters go: any other escape is left as it is. */
  function Denoted(ch: char): char {
    match ch
    case 'n' => '\n'
    case 'r' => '\r'
    case 't' => '\t'
    case _ => ch
  }

  /** What one character adds, given the state before it; raw control characters in strings stand for themselves. */
  function ReadChar(st: Scan, ch: char): seq<Symbol> {
    if !st.inString then [Mark(ch)]
    else if st.escaped then [Text(Denoted(ch))]
    else if ch == '\\' then []
    else if ch == '"' then [Mark(ch)]
    else [Text(ch)]
  }

  function Read(s: string): seq<Symbol> {
    if s == "" then [] else Read(s[..|s| - 1]) + ReadChar(ScanOf(s[..|s| - 1]), s[|s| - 1])
  }

  lemma ReadAppend(s: string, ch: char)
    ensures Read(s + [ch]) == Read(s) + ReadChar(ScanOf(s), ch)
  {
    assert (s + [ch])[..|s|] == s;
  }

  /** Escaping preserves what is read: every escape stands for the character it replaces, and nothing else changes. */
  lemma {:induction false} EscapedReadsAlike(s: string)
    ensures Read(Escaped(s)) == Read(s)
  {
    if s != "" {
      var init, ch := s[..|s| - 1], s[|s| - 1];
      assert s == init + [ch];
      EscapedReadsAlike(init);
      EscapedScansAlike(init);
      EscapedAppend(init, ch);
      ReadAppend(init, ch);
      EscapeCharReadsAlike(Escaped(init), ch);
    }
  }

  lemma EscapeCharReadsAlike(t: string, ch: char)
    ensures Read(t + EscapeChar(ScanOf(t), ch)) == Read(t) + ReadChar(ScanOf(t), ch)
  {
    hide ScanOf, Read;
    var out := EscapeChar(ScanOf(t), ch);
    ReadAppend(t, out[0]);
    ScanAppend(t, out[0]);
    if |out| == 2 {
      assert t + out == t + [out[0]] + [out[1]];
      ReadAppend(t + [out[0]], out[1]);
    } else {
      assert out == [out[0]];
    }
  }

  predicate Structural(ch: char) {
    ch == '{' || ch == '}' || ch == '[' || ch == ']'
  }

  /** Open braces and brackets, as the source counts them: never below zero. */
  datatype Open = Open(braces: nat, brackets: nat)

  function Tally(open: Open, ch: char): Open {
    if ch == '{' then Open(open.braces + 1, open.brackets)
    else if ch == '}' then Open(if open.braces == 0 then 0 else open.braces - 1, open.brackets)
    else if ch == '[' then Open(open.braces, open.brackets + 1)
    else if ch == ']' then Open(open.braces, if open.brackets == 0 then 0 else open.brackets - 1)
    else open
  }

  function OpenOf(s: string): Open {
    if s == "" then Open(0, 0)
    else if ScanOf(s[..|s| - 1]) == START then Tally(OpenOf(s[..|s| - 1]), s[|s| - 1])
    else OpenOf(s[..|s| - 1])
  }

  lemma OpenAppend(s: string, ch: char)
    ensures OpenOf(s + [ch]) == if ScanOf(s) == START then Tally(OpenOf(s), ch) else OpenOf(s)
  {
    assert (s + [ch])[..|s|] == s;
  }

  lemma EscapedAppend(s: string, ch: char)
    ensures Escaped(s + [ch]) == Escaped(s) + EscapeChar(ScanOf(s), ch)
  {
    assert (s + [ch])[..|s|] == s;
  }

  /** One escaped character moves scanner and counters as the raw character does. */
  lemma EscapeCharScansAlike(t: string, ch: char)
    ensures ScanOf(t + EscapeChar(ScanOf(t), ch)) == Next(ScanOf(t), ch)
    ensures OpenOf(t + EscapeChar(ScanOf(t), ch)) == if ScanOf(t) == START then Tally(OpenOf(t), ch) else OpenOf(t)
  {
    hide ScanOf, OpenOf;
    var out := EscapeChar(ScanOf(t), ch);
    ScanAppend(t, out[0]);
    OpenAppend(t, out[0]);
    if |out| == 2 {
      assert t + out == t + [out[0]] + [out[1]];
      ScanAppend(t + [out[0]], out[1]);
      OpenAppend(t + [out[0]], out[1]);
    } else {
      assert out == [out[0]];
    }
  }

  /** Escaping changes neither the scanner's final state nor what is left open. */
  lemma {:induction false} EscapedScansAlike(s: string)
    ensures ScanOf(Escaped(s)) == ScanOf(s)
    ensures OpenOf(Escaped(s)) == OpenOf(s)
  {
    if s != "" {
      EscapedScansAlike(s[..|s| - 1]);
      EscapeCharScansAlike(Escaped(s[..|s| - 1]), s[|s| - 1]);
    }
  }

  lemma {:induction false} EscapedIdempotent(s: string)
    ensures Escaped(Escaped(s)) == Escaped(s)
  {
    if s != "" {
      var init, ch := s[..|s| - 1], s[|s| - 1];
      assert s == init + [ch];
      EscapedIdempotent(init);
      EscapedIdempotentStep(init, ch);
    }
  }

  lemma EscapedIdempotentStep(init: string, ch: char)
    requires Escaped(Escaped(init)) == Escaped(init)
    ensures Escaped(Escaped(init + [ch])) == Escaped(init + [ch])
  {
    hide Escaped, ScanOf;
    EscapedAppend(init, ch);
    EscapedScansAlike(init);
    var out := EscapeChar(ScanOf(init), ch);
    EscapedAppend(Escaped(init), out[0]);
    ScanAppend(Escaped(init), out[0]);
    if |out| == 2 {
      assert Escaped(init) + out == Escaped(init) + [out[0]] + [out[1]];
      EscapedAppend(Escaped(init) + [out[0]], out[1]);
    } else {
      assert out == [out[0]];
    }
  }

  /** A raw control character at `i` that a JSON string may not contain. */
  predicate RawControlAt(s: string, i: nat)
    requires i < |s|
  {
    ScanOf(s[..i]) == Scan(true, false) && (s[i] == '\n' || s[i] == '\r' || s[i] == '\t')
  }

  ghost predicate NoRawControls(s: string) {
    forall i: nat :: i < |s| ==> !RawControlAt(s, i)
  }

  lemma NoRawControlsStep(s: string)
    requires s != ""
    ensures NoRawControls(s) <==> NoRawControls(s[..|s| - 1]) && !RawControlAt(s, |s| - 1)
  {
    var init := s[..|s| - 1];
    forall i: nat | i < |init|
      ensures RawControlAt(s, i) == RawControlAt(init, i)
    {
      assert s[..i] == init[..i];
    }
  }

  /** What is unchanged by escaping is exactly the text with no raw control character inside a string. */
  lemma {:induction false} EscapedFixpointIff(s: string)
    ensures |Escaped(s)| >= |s|
    ensures Escaped(s) == s <==> NoRawControls(s)
  {
    if s != "" {
      var init, ch := s[..|s| - 1], s[|s| - 1];
      assert s == init + [ch];
      EscapedFixpointIff(init);
      EscapedFixpointStep(init, ch);
      NoRawControlsStep(s);
    }
  }

  lemma EscapedFixpointStep(init: string, ch: char)
    requires |Escaped(init)| >= |init|
    ensures |Escaped(init + [ch])| > |init|
    ensures Escaped(init + [ch]) == init + [ch] <==> Escaped(init) == init && EscapeChar(ScanOf(init), ch) == [ch]
  {
    hide Escaped, ScanOf;
    EscapedAppend(init, ch);
    if Escaped(init + [ch]) == init + [ch] {
      assert Escaped(init) == (init + [ch])[..|init|];
    }
  }

  // ----- adding missing closers

  function Repeat(ch: char, n: nat): string {
    if n == 0 then "" else Repeat(ch, n - 1) + [ch]
  }

  /** The text with all missing brackets, then all missing braces, appended. */
  function Closed(s: string): string {
    s + Repeat(']', OpenOf(s).brackets) + Repeat('}', OpenOf(s).braces)
  }

  method AddMissingClosers(s: string) returns (result: string)
    ensures result == Closed(s)
  {
    var openBraces: nat, openBrackets: nat := 0, 0;
    var inString, escaped := false, false;
    for i := 0 to |s|
      invariant Scan(inString, escaped) == ScanOf(s[..i])
      invariant Open(openBraces, openBrackets) == OpenOf(s[..i])
    {
      assert s[..i + 1][..i] == s[..i];
      var ch := s[i];
      if escaped {
        escaped := false;
      } else if ch == '\\' {
        escaped := true;
      } else if ch == '"' {
        inString := !inString;
      } else if inString {
      } else if ch == '{' {
        openBraces := openBraces + 1;
      } else if ch == '}' {
        openBraces := Max(0, openBraces - 1);
      } else if ch == '[' {
        openBrackets := openBrackets + 1;
      } else if ch == ']' {
        openBrackets := Max(0, openBrackets - 1);
      }
    }
    assert s[..|s|] == s;
    result := s;
    for i := 0 to openBrackets
      invariant result == s + Repeat(']', i)
    {
      result := result + [']'];
    }
    for i := 0 to openBraces
      invariant result == s + Repeat(']', openBrackets) + Repeat('}', i)
    {
      result := result + ['}'];
    }
  }

  /** A run of one closer, appended outside strings, closes that many; elsewhere it is not counted. */
  lemma {:induction false} ClosersCounted(s: string, ch: char, n: nat)
    requires ch == ']' || ch == '}'
    ensures ScanOf(s).inString ==> ScanOf(s + Repeat(ch, n)).inString && OpenOf(s + Repeat(ch, n)) == OpenOf(s)
    ensures ScanOf(s) == START ==>
              && ScanOf(s + Repeat(ch, n)) == START
              && OpenOf(s + Repeat(ch, n)) == if ch == ']' then Open(OpenOf(s).braces, Max(0, OpenOf(s).brackets - n))
                                              else Open(Max(0, OpenOf(s).braces - n), OpenOf(s).brackets)
  {
    hide ScanOf, OpenOf;
    if n == 0 {
      assert s + Repeat(ch, n) == s;
    } else {
      ClosersCounted(s, ch, n - 1);
      assert s + Repeat(ch, n) == s + Repeat(ch, n - 1) + [ch];
      ScanAppend(s + Repeat(ch, n - 1), ch);
      OpenAppend(s + Repeat(ch, n - 1), ch);
    }
  }

  lemma {:induction false} RepeatFromFront(ch: char, n: nat)
    requires n > 0
    ensures Repeat(ch, n) == [ch] + Repeat(ch, n - 1)
  {
    if n > 1 {
      RepeatFromFront(ch, n - 1);
    }
  }

  /**
   * Right after a backslash the first closer is swallowed; with `s'` the text including
   * it, the others are missing one.
   */
  lemma SwallowedCloser(s: string) returns (s': string, rest: string)
    requires ScanOf(s) == Scan(false, true) && OpenOf(s) != Open(0, 0)
    ensures Closed(s) == s' + rest && |rest| + 1 == OpenOf(s).braces + OpenOf(s).brackets
    ensures ScanOf(s') == START && OpenOf(s') == OpenOf(s) && s' == s + [Closed(s)[|s|]]
    ensures OpenOf(Closed(s)) != Open(0, 0)
  {
    hide ScanOf, OpenOf;
    var open := OpenOf(s);
    if open.brackets > 0 {
      RepeatFromFront(']', open.brackets);
      s' := s + [']'];
      rest := Repeat(']', open.brackets - 1) + Repeat('}', open.braces);
      ScanAppend(s, ']');
      OpenAppend(s, ']');
      ClosersCounted(s', ']', open.brackets - 1);
      ClosersCounted(s' + Repeat(']', open.brackets - 1), '}', open.braces);
      assert Closed(s) == s' + Repeat(']', open.brackets - 1) + Repeat('}', open.braces);
    } else {
      RepeatFromFront('}', open.braces);
      s' := s + ['}'];
      rest := Repeat('}', open.braces - 1);
      ScanAppend(s, '}');
      OpenAppend(s, '}');
      ClosersCounted(s', '}', open.braces - 1);
      assert Closed(s) == s' + Repeat('}', open.braces - 1);
    }
    RepeatLength(']', open.brackets);
    RepeatLength('}', open.braces);
    assert |Closed(s)| == |s' + rest|;
  }

  lemma {:induction false} RepeatLength(ch: char, n: nat)
    ensures |Repeat(ch, n)| == n
  {
    if n > 0 {
      RepeatLength(ch, n - 1);
    }
  }

  /** Nothing is left open exactly when nothing was, or the text ends outside strings and not after a backslash. */
  lemma ClosedLeavesNothingOpenIff(s: string)
    ensures OpenOf(Closed(s)) == Open(0, 0) <==> OpenOf(s) == Open(0, 0) || ScanOf(s) == START
  {
    hide ScanOf, OpenOf;
    var open := OpenOf(s);
    var once := s + Repeat(']', open.brackets);
    if ScanOf(s) == START || ScanOf(s).inString {
      ClosersCounted(s, ']', open.brackets);
      ClosersCounted(once, '}', open.braces);
    } else if open != Open(0, 0) {
      var s', rest := SwallowedCloser(s);
    } else {
      assert Closed(s) == s;
    }
  }

  /** Adding closers twice adds none the second time, under exactly the same condition. */
  lemma ClosedIdempotentIff(s: string)
    ensures Closed(Closed(s)) == Closed(s) <==> OpenOf(s) == Open(0, 0) || ScanOf(s) == START
  {
    ClosedLeavesNothingOpenIff(s);
    var open := OpenOf(Closed(s));
    RepeatLength(']', open.brackets);
    RepeatLength('}', open.braces);
    assert |Closed(Closed(s))| == |Closed(s)| + open.brackets + open.braces;
    if open == Open(0, 0) {
      assert Closed(Closed(s)) == Closed(s);
    }
  }

  // ----- nesting

  function Opener(ch: char): char {
    if ch == '}' then '{' else '['
  }

  function Push(stack: Option<string>, ch: char): Option<string> {
    if stack == None || !Structural(ch) then stack
    else if ch == '{' || ch == '[' then Some(stack.value + [ch])
    else if stack.value != "" && stack.value[|stack.value| - 1] == Opener(ch)
      then Some(stack.value[..|stack.value| - 1])
    else None
  }

  /** The openers still open, outermost first; `None` once a closer did not match. */
  function Nest(s: string): Option<string> {
    if s == "" then Some("")
    else if ScanOf(s[..|s| - 1]) == START then Push(Nest(s[..|s| - 1]), s[|s| - 1])
    else Nest(s[..|s| - 1])
  }

  lemma NestAppend(s: string, ch: char)
    ensures Nest(s + [ch]) == if ScanOf(s) == START then Push(Nest(s), ch) else Nest(s)
  {
    assert (s + [ch])[..|s|] == s;
  }

  /** Every bracket outside strings matches, and the text does not end inside a string or an escape. */
  predicate WellNested(s: string) {
    Nest(s) == Some("") && ScanOf(s) == START
  }

  function CountIn(stack: string, ch: char): nat {
    if stack == "" then 0 else CountIn(stack[..|stack| - 1], ch) + if stack[|stack| - 1] == ch then 1 else 0
  }

  /** The two counters refine the stack, and never clamp, as long as everything matched. */
  lemma {:induction false} CountersRefineStack(s: string)
    requires Nest(s).Some?
    ensures OpenOf(s) == Open(CountIn(Nest(s).value, '{'), CountIn(Nest(s).value, '['))
    ensures |Nest(s).value| == OpenOf(s).braces + OpenOf(s).brackets
  {
    if s != "" {
      var init, ch := s[..|s| - 1], s[|s| - 1];
      CountersRefineStack(init);
      if ScanOf(init) == START && (ch == '{' || ch == '[') {
        assert (Nest(init).value + [ch])[..|Nest(init).value|] == Nest(init).value;
      }
    }
  }

  /** The stack is braces below brackets. */
  ghost predicate BracesBelowBrackets(stack: string) {
    exists a: nat, b: nat :: stack == Repeat('{', a) + Repeat('[', b)
  }

  /** Outside strings, a closer that matches takes one opener off the stack; and only then is there a stack after it. */
  lemma CloserPopsOne(s: string, ch: char)
    requires ScanOf(s) == START && (ch == ']' || ch == '}')
    ensures ScanOf(s + [ch]) == START
    ensures Nest(s + [ch]).Some? ==> Nest(s) == Some(Nest(s + [ch]).value + [Opener(ch)])
    ensures forall base :: Nest(s) == Some(base + [Opener(ch)]) ==> Nest(s + [ch]) == Some(base)
  {
    hide ScanOf, Nest;
    ScanAppend(s, ch);
    NestAppend(s, ch);
    if Nest(s + [ch]).Some? {
      var top := Nest(s).value;
      assert top == top[..|top| - 1] + [Opener(ch)];
    }
    forall base | Nest(s) == Some(base + [Opener(ch)])
      ensures Nest(s + [ch]) == Some(base)
    {
      assert (base + [Opener(ch)])[..|base|] == base;
    }
  }

  /** Closing `n` openers of one kind takes exactly those off the top of the stack. */
  lemma {:induction false} ClosersPop(s: string, ch: char, n: nat, base: string)
    requires ScanOf(s) == START && (ch == ']' || ch == '}')
    requires Nest(s) == Some(base + Repeat(Opener(ch), n))
    ensures Nest(s + Repeat(ch, n)) == Some(base)
    decreases n
  {
    hide ScanOf, Nest;
    if n == 0 {
      assert s + Repeat(ch, n) == s && base + Repeat(Opener(ch), n) == base;
    } else {
      CloserPopsOne(s, ch);
      assert base + Repeat(Opener(ch), n) == (base + Repeat(Opener(ch), n - 1)) + [Opener(ch)];
      ClosersPop(s + [ch], ch, n - 1, base);
      RepeatFromFront(ch, n);
      assert s + Repeat(ch, n) == s + [ch] + Repeat(ch, n - 1);
    }
  }

  /** When closing succeeds, that many openers of the kind were on top. */
  lemma {:induction false} PoppedWereOnTop(s: string, ch: char, n: nat)
    requires ScanOf(s) == START && (ch == ']' || ch == '}')
    requires Nest(s + Repeat(ch, n)).Some?
    ensures Nest(s).Some? && Nest(s).value == Nest(s + Repeat(ch, n)).value + Repeat(Opener(ch), n)
    decreases n
  {
    hide ScanOf, Nest;
    if n == 0 {
      assert s + Repeat(ch, n) == s;
    } else {
      CloserPopsOne(s, ch);
      RepeatFromFront(ch, n);
      assert s + Repeat(ch, n) == s + [ch] + Repeat(ch, n - 1);
      PoppedWereOnTop(s + [ch], ch, n - 1);
    }
  }

  /** A character takes at most one opener off the stack. */
  lemma {:induction false} NestShrinksSlowly(s: string, t: string)
    requires Nest(s + t).Some?
    ensures Nest(s).Some? && |Nest(s).value| <= |Nest(s + t).value| + |t|
  {
    if t == "" {
      assert s + t == s;
    } else {
      var init := t[..|t| - 1];
      assert s + t == s + init + [t[|t| - 1]];
      NestAppend(s + init, t[|t| - 1]);
      NestShrinksSlowly(s, init);
    }
  }

  lemma CountInAppend(stack: string, top: char, ch: char)
    ensures CountIn(stack + [top], ch) == CountIn(stack, ch) + if top == ch then 1 else 0
  {
    assert (stack + [top])[..|stack|] == stack;
  }

  /** Each kind is counted on its own, whatever lies below. */
  lemma {:induction false} CountOnTop(below: string, top: char, n: nat, ch: char)
    ensures CountIn(below + Repeat(top, n), ch) == CountIn(below, ch) + if top == ch then n else 0
  {
    hide CountIn;
    if n == 0 {
      assert below + Repeat(top, n) == below;
    } else {
      CountOnTop(below, top, n - 1, ch);
      CountInAppend(below + Repeat(top, n - 1), top, ch);
      assert below + Repeat(top, n) == below + Repeat(top, n - 1) + [top];
    }
  }

  lemma CountRepeat(a: nat, b: nat)
    ensures CountIn(Repeat('{', a) + Repeat('[', b), '{') == a
    ensures CountIn(Repeat('{', a) + Repeat('[', b), '[') == b
  {
    assert "" + Repeat('{', a) == Repeat('{', a);
    CountOnTop("", '{', a, '{');
    CountOnTop("", '{', a, '[');
    CountOnTop(Repeat('{', a), '[', b, '{');
    CountOnTop(Repeat('{', a), '[', b, '[');
  }

  lemma ClosableWellNested(s: string)
    requires ScanOf(s) == START && Nest(s).Some? && BracesBelowBrackets(Nest(s).value)
    ensures WellNested(Closed(s))
  {
    var open := OpenOf(s);
    var once := s + Repeat(']', open.brackets);
    CountersRefineStack(s);
    var a: nat, b: nat :| Nest(s).value == Repeat('{', a) + Repeat('[', b);
    CountRepeat(a, b);
    ClosersPop(s, ']', b, Repeat('{', a));
    ClosersCounted(s, ']', b);
    assert Repeat('{', a) == "" + Repeat('{', a);
    ClosersPop(once, '}', a, "");
    ClosersCounted(once, '}', a);
  }

  lemma WellNestedWasClosable(s: string)
    requires ScanOf(s) == START && WellNested(Closed(s))
    ensures Nest(s).Some? && BracesBelowBrackets(Nest(s).value)
  {
    var open := OpenOf(s);
    var once := s + Repeat(']', open.brackets);
    ClosersCounted(s, ']', open.brackets);
    PoppedWereOnTop(once, '}', open.braces);
    assert Nest(once).value == Repeat('{', open.braces);
    PoppedWereOnTop(s, ']', open.brackets);
  }

  lemma UnfinishedNeverWellNested(s: string)
    requires ScanOf(s) != START
    ensures !WellNested(Closed(s))
  {
    var open := OpenOf(s);
    var once := s + Repeat(']', open.brackets);
    if ScanOf(s).inString {
      ClosersCounted(s, ']', open.brackets);
      ClosersCounted(once, '}', open.braces);
    } else if open == Open(0, 0) {
      assert Closed(s) == s;
    } else {
      var s', rest := SwallowedCloser(s);
      NestAppend(s, Closed(s)[|s|]);
      if Nest(s' + rest) == Some("") {
        NestShrinksSlowly(s', rest);
        CountersRefineStack(s);
      }
    }
  }

  /** The repaired text is well nested exactly when the input can be closed by brackets first and braces after. */
  lemma ClosedWellNestedIff(s: string)
    ensures WellNested(Closed(s)) <==> ScanOf(s) == START && Nest(s).Some? && BracesBelowBrackets(Nest(s).value)
  {
    if ScanOf(s) != START {
      UnfinishedNeverWellNested(s);
    } else if WellNested(Closed(s)) {
      WellNestedWasClosable(s);
    } else if Nest(s).Some? && BracesBelowBrackets(Nest(s).value) {
      ClosableWellNested(s);
    }
  }

  /** An object open inside an array is closed in the wrong order. */
  lemma ObjectInArrayNotClosed()
    ensures Closed("[{") == "[{]}" && !WellNested(Closed("[{"))
  {
    hide ScanOf, OpenOf, Nest;
    ScannedEmpty();
    assert "" + ['['] == "[" && "[" + ['{'] == "[{" && "[{" + [']'] == "[{]" && "[{]" + ['}'] == "[{]}";
    ScanAppend("", '[');
    ScanAppend("[", '{');
    ScanAppend("[{", ']');
    OpenAppend("", '[');
    OpenAppend("[", '{');
    NestAppend("", '[');
    NestAppend("[", '{');
    NestAppend("[{", ']');
    NestAppend("[{]", '}');
    assert Repeat(']', 0) == "" && Repeat('}', 0) == "" && Repeat(']', 1) == "]" && Repeat('}', 1) == "}";
  }

  lemma ScannedEmpty()
    ensures ScanOf("") == START && OpenOf("") == Open(0, 0) && Nest("") == Some("")
  {
  }
}
