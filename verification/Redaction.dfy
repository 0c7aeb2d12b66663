/**
 * PII redaction and restoration. Spans are cut out from the last to the first,
 * each leaving a numbered placeholder; restoration replaces every occurrence of
 * one placeholder after the other.
 */
module Redaction {
  import opened Prelude

  datatype Span = Span(kind: string, value: string, index: nat, length: nat) {
    function End(): nat {
      index + length
    }
  }

  /** An entry of the restore map, which iterates in insertion order. */
  datatype Entry = Entry(placeholder: string, original: string)

  // ----- sorting by descending index, stably

  function Insert(sorted: seq<Span>, x: Span): (r: seq<Span>)
    ensures |r| == |sorted| + 1
  {
    if sorted == [] || sorted[|sorted| - 1].index >= x.index then sorted + [x]
    else Insert(sorted[..|sorted| - 1], x) + [sorted[|sorted| - 1]]
  }

  function SortDescending(spans: seq<Span>): seq<Span> {
    if spans == [] then [] else Insert(SortDescending(spans[..|spans| - 1]), spans[|spans| - 1])
  }

  // ----- placeholders

  function CountKind(spans: seq<Span>, n: nat, kind: string): nat
    requires n <= |spans|
  {
    if n == 0 then 0 else CountKind(spans, n - 1, kind) + if spans[n - 1].kind == kind then 1 else 0
  }

  function Placeholder(kind: string, n: nat): string {
    "[" + kind + "_" + Decimal(n) + "]"
  }

  /** The placeholder of the `k`-th span: numbered among the spans of its kind. */
  function PlaceholderAt(spans: seq<Span>, k: nat): string
    requires k < |spans|
  {
    Placeholder(spans[k].kind, CountKind(spans, k, spans[k].kind) + 1)
  }

  function Marks(sorted: seq<Span>): seq<string> {
    seq(|sorted|, k requires 0 <= k < |sorted| => PlaceholderAt(sorted, k))
  }

  ghost function OfKind(spans: seq<Span>, n: nat, kind: string): set<nat>
    requires n <= |spans|
  {
    set i: nat | i < n && spans[i].kind == kind
  }

  lemma {:induction false} CountKindIs(spans: seq<Span>, n: nat, kind: string)
    requires n <= |spans|
    ensures CountKind(spans, n, kind) == |OfKind(spans, n, kind)|
  {
    if n == 0 {
      assert OfKind(spans, n, kind) == {};
    } else {
      CountKindIs(spans, n - 1, kind);
      assert OfKind(spans, n, kind) ==
             OfKind(spans, n - 1, kind) + if spans[n - 1].kind == kind then {n - 1} else {};
    }
  }

  /** What a placeholder looks like: the kind, and which of the spans of that kind it stands for. */
  lemma PlaceholderNumbered(spans: seq<Span>, k: nat)
    requires k < |spans|
    ensures PlaceholderAt(spans, k) ==
            "[" + spans[k].kind + "_" + Decimal(|OfKind(spans, k + 1, spans[k].kind)|) + "]"
  {
    CountKindIs(spans, k + 1, spans[k].kind);
  }

  lemma {:induction false} CountKindMonotone(spans: seq<Span>, m: nat, n: nat, kind: string)
    requires m <= n <= |spans|
    ensures CountKind(spans, m, kind) <= CountKind(spans, n, kind)
  {
    if m < n {
      CountKindMonotone(spans, m, n - 1, kind);
    }
  }

  /** Kind and number can be read back from a placeholder, whatever characters the kind has. */
  lemma PlaceholderInjective(kind: string, n: nat, kind': string, n': nat)
    requires Placeholder(kind, n) == Placeholder(kind', n')
    ensures kind == kind' && n == n'
  {
    var p := Placeholder(kind, n);
    var d, d' := Decimal(n), Decimal(n');
    var u, u' := |kind| + 1, |kind'| + 1;
    assert p[u] == '_' && p[u'] == '_';
    assert |p| == u + 1 + |d| + 1 == u' + 1 + |d'| + 1;
    forall k | u < k < |p| - 1
      ensures p[k] != '_'
    {
      assert p[k] == d[k - u - 1];
    }
    forall k | u' < k < |p| - 1
      ensures p[k] != '_'
    {
      assert p[k] == d'[k - u' - 1];
    }
    assert u == u';
    assert kind == p[1..u] == kind' && d == p[u + 1..|p| - 1] == d';
    ParseDecimal(n);
    ParseDecimal(n');
  }

  /** One placeholder a span: all are different. */
  lemma PlaceholdersDistinct(spans: seq<Span>, i: nat, j: nat)
    requires i < j < |spans|
    ensures PlaceholderAt(spans, i) != PlaceholderAt(spans, j)
  {
    if PlaceholderAt(spans, i) == PlaceholderAt(spans, j) {
      PlaceholderInjective(spans[i].kind, CountKind(spans, i, spans[i].kind) + 1, spans[j].kind,
        CountKind(spans, j, spans[j].kind) + 1);
      CountKindMonotone(spans, i + 1, j, spans[i].kind);
    }
  }

  // ----- redaction

  /** `slice` clamps its bounds. */
  function Before(s: string, n: nat): string {
    s[..Min(n, |s|)]
  }

  function After(s: string, n: nat): string {
    s[Min(n, |s|)..]
  }

  function CutOut(s: string, span: Span, placeholder: string): string {
    Before(s, span.index) + placeholder + After(s, span.End())
  }

  /** `Map.set`: a new key goes last, a known one keeps its place. */
  function SetEntry(m: seq<Entry>, placeholder: string, original: string): seq<Entry> {
    if m == [] then [Entry(placeholder, original)]
    else if m[0].placeholder == placeholder then [Entry(placeholder, original)] + m[1..]
    else [m[0]] + SetEntry(m[1..], placeholder, original)
  }

  lemma {:induction false} SetEntryAppends(m: seq<Entry>, placeholder: string, original: string)
    requires forall k :: 0 <= k < |m| ==> m[k].placeholder != placeholder
    ensures SetEntry(m, placeholder, original) == m + [Entry(placeholder, original)]
  {
    if m != [] {
      SetEntryAppends(m[1..], placeholder, original);
    }
  }

  function EntriesOf(sorted: seq<Span>, marks: seq<string>, n: nat): (r: seq<Entry>)
    requires n <= |sorted| == |marks|
    ensures |r| == n && forall k :: 0 <= k < n ==> r[k] == Entry(marks[k], sorted[k].value)
  {
    if n == 0 then [] else EntriesOf(sorted, marks, n - 1) + [Entry(marks[n - 1], sorted[n - 1].value)]
  }

  function CutOuts(text: string, sorted: seq<Span>, marks: seq<string>, n: nat): string
    requires n <= |sorted| == |marks|
  {
    if n == 0 then text else CutOut(CutOuts(text, sorted, marks, n - 1), sorted[n - 1], marks[n - 1])
  }

  lemma NothingSorted()
    ensures SortDescending([]) == []
  {
  }

  method RedactPii(text: string, spans: seq<Span>) returns (redacted: string, restoreMap: seq<Entry>)
    ensures var sorted := SortDescending(spans);
            && redacted == CutOuts(text, sorted, Marks(sorted), |sorted|)
            && restoreMap == EntriesOf(sorted, Marks(sorted), |sorted|)
  {
    hide SortDescending, EntriesOf, SetEntry, CutOut, PlaceholderAt;
    if |spans| == 0 {
      NothingSorted();
      return text, [];
    }
    var sorted := SortDescending(spans);
    restoreMap := [];
    var counters: map<string, nat> := map[];
    redacted := text;
    for i := 0 to |sorted|
      invariant forall kind :: (if kind in counters then counters[kind] else 0) == CountKind(sorted, i, kind)
      invariant restoreMap == EntriesOf(sorted, Marks(sorted), i)
      invariant redacted == CutOuts(text, sorted, Marks(sorted), i)
    {
      var span := sorted[i];
      var n := (if span.kind in counters then counters[span.kind] else 0) + 1;
      counters := counters[span.kind := n];
      var placeholder := Placeholder(span.kind, n);
      NumberedAt(sorted, i, n);
      EntriesStep(sorted, i);
      restoreMap := SetEntry(restoreMap, placeholder, span.value);
      redacted := CutOut(redacted, span, placeholder);
    }
  }

  lemma NumberedAt(sorted: seq<Span>, i: nat, n: nat)
    requires i < |sorted| && n == CountKind(sorted, i, sorted[i].kind) + 1
    ensures Marks(sorted)[i] == PlaceholderAt(sorted, i) == Placeholder(sorted[i].kind, n)
  {
  }

  lemma EntriesStep(sorted: seq<Span>, i: nat)
    requires i < |sorted|
    ensures SetEntry(EntriesOf(sorted, Marks(sorted), i), PlaceholderAt(sorted, i), sorted[i].value)
         == EntriesOf(sorted, Marks(sorted), i + 1)
  {
    forall k | 0 <= k < i
      ensures Marks(sorted)[k] != PlaceholderAt(sorted, i)
    {
      PlaceholdersDistinct(sorted, k, i);
    }
    SetEntryAppends(EntriesOf(sorted, Marks(sorted), i), PlaceholderAt(sorted, i), sorted[i].value);
  }

  // ----- restoration

  /** `split(p).join(v)`: every occurrence, left to right, not overlapping. */
  function ReplaceAll(s: string, p: string, v: string): string
    requires p != ""
    decreases |s|
  {
    if s == "" then ""
    else if p <= s then v + ReplaceAll(s[|p|..], p, v)
    else [s[0]] + ReplaceAll(s[1..], p, v)
  }

  function RestoreEach(text: string, entries: seq<Entry>, n: nat): string
    requires n <= |entries| && forall k :: 0 <= k < |entries| ==> entries[k].placeholder != ""
  {
    if n == 0 then text
      else ReplaceAll(RestoreEach(text, entries, n - 1), entries[n - 1].placeholder, entries[n - 1].original)
  }

  method RestorePii(text: string, restoreMap: seq<Entry>) returns (result: string)
    requires forall k :: 0 <= k < |restoreMap| ==> restoreMap[k].placeholder != ""
    ensures result == RestoreEach(text, restoreMap, |restoreMap|)
  {
    result := text;
    for i := 0 to |restoreMap|
      invariant result == RestoreEach(text, restoreMap, i)
    {
      result := ReplaceAll(result, restoreMap[i].placeholder, restoreMap[i].original);
    }
  }

  // ----- the round trip

  predicate Bracketless(s: string) {
    forall k :: 0 <= k < |s| ==> s[k] != '[' && s[k] != ']'
  }

  ghost predicate Occurs(p: string, s: string) {
    exists k :: 0 <= k <= |s| && p <= s[k..]
  }

  predicate Apart(a: Span, b: Span) {
    a.End() <= b.index || b.End() <= a.index
  }

  /** A non-empty span of the text, whose kind, like those of the pattern table, has no bracket. */
  predicate Genuine(text: string, span: Span) {
    0 < span.length && span.End() <= |text| && text[span.index..span.End()] == span.value && Bracketless(span.kind)
  }

  ghost predicate Disjoint(text: string, spans: seq<Span>) {
    && (forall i :: 0 <= i < |spans| ==> Genuine(text, spans[i]))
    && (forall i, j :: 0 <= i < j < |spans| ==> Apart(spans[i], spans[j]))
  }

  ghost predicate Descending(sorted: seq<Span>) {
    forall i, j :: 0 <= i < j < |sorted| ==> sorted[i].index >= sorted[j].index
  }

  lemma {:induction false} InsertMembers(sorted: seq<Span>, x: Span)
    ensures forall k :: 0 <= k <= |sorted| ==> Insert(sorted, x)[k] == x || Insert(sorted, x)[k] in sorted
  {
    if sorted != [] && sorted[|sorted| - 1].index < x.index {
      InsertMembers(sorted[..|sorted| - 1], x);
    }
  }

  lemma {:induction false} InsertKeepsOrder(text: string, sorted: seq<Span>, x: Span)
    requires Disjoint(text, sorted) && Genuine(text, x) && forall k :: 0 <= k < |sorted| ==> Apart(sorted[k], x)
    requires Descending(sorted)
    ensures Disjoint(text, Insert(sorted, x)) && Descending(Insert(sorted, x))
  {
    hide Genuine;
    if sorted != [] && sorted[|sorted| - 1].index < x.index {
      var init := sorted[..|sorted| - 1];
      InsertKeepsOrder(text, init, x);
      InsertMembers(init, x);
      AppendKeepsOrder(text, Insert(init, x), sorted[|sorted| - 1]);
    } else {
      AppendKeepsOrder(text, sorted, x);
    }
  }

  lemma AppendKeepsOrder(text: string, sorted: seq<Span>, x: Span)
    requires Disjoint(text, sorted) && Descending(sorted) && Genuine(text, x)
    requires forall k :: 0 <= k < |sorted| ==> Apart(sorted[k], x) && sorted[k].index >= x.index
    ensures Disjoint(text, sorted + [x]) && Descending(sorted + [x])
  {
    hide Genuine, Apart;
  }

  lemma {:induction false} SortMembers(spans: seq<Span>)
    ensures |SortDescending(spans)| == |spans|
    ensures forall k :: 0 <= k < |spans| ==> SortDescending(spans)[k] in spans
  {
    if spans != [] {
      SortMembers(spans[..|spans| - 1]);
      InsertMembers(SortDescending(spans[..|spans| - 1]), spans[|spans| - 1]);
    }
  }

  lemma {:induction false} SortKeepsOrder(text: string, spans: seq<Span>)
    requires Disjoint(text, spans)
    ensures var sorted := SortDescending(spans);
            Disjoint(text, sorted) && Descending(sorted)
  {
    if spans != [] {
      var init := spans[..|spans| - 1];
      SortKeepsOrder(text, init);
      SortMembers(init);
      forall k | 0 <= k < |init|
        ensures Apart(SortDescending(init)[k], spans[|spans| - 1])
      {
        var i :| 0 <= i < |init| && init[i] == SortDescending(init)[k];
        assert Apart(spans[i], spans[|spans| - 1]);
      }
      InsertKeepsOrder(text, SortDescending(init), spans[|spans| - 1]);
    }
  }

  /** Within `n` characters, each span ends before the one handled just before it begins. */
  ghost predicate Laid(n: nat, sorted: seq<Span>) {
    && (forall k :: 0 <= k < |sorted| ==> sorted[k].End() <= n)
    && (forall i, j :: 0 <= i < j < |sorted| ==> sorted[j].End() <= sorted[i].index)
  }

  ghost predicate WithinPiece(n: nat, sorted: seq<Span>, marks: seq<string>, a: nat, b: nat, pos: nat) {
    && Laid(n, sorted) && |marks| == |sorted| && a <= b <= |sorted|
    && pos <= if a < b then sorted[b - 1].index else n
  }

  /** The text from `pos` on with spans `a` up to `b` replaced by their marks; span `b - 1` is the leftmost of them. */
  ghost function Piece(text: string, sorted: seq<Span>, marks: seq<string>, a: nat, b: nat, pos: nat): string
    requires WithinPiece(|text|, sorted, marks, a, b, pos)
    decreases b
  {
    if a == b then text[pos..]
    else text[pos..sorted[b - 1].index] + (marks[b - 1] + Piece(text, sorted, marks, a, b - 1, sorted[b - 1].End()))
  }

  lemma PieceUnfolds(text: string, sorted: seq<Span>, marks: seq<string>, a: nat, b: nat, pos: nat)
    requires WithinPiece(|text|, sorted, marks, a, b, pos) && a < b
    ensures Piece(text, sorted, marks, a, b, pos)
         == text[pos..sorted[b - 1].index] + (marks[b - 1] + Piece(text, sorted, marks, a, b - 1, sorted[b - 1].End()))
  {
  }

  lemma PieceEmpty(text: string, sorted: seq<Span>, marks: seq<string>, a: nat, pos: nat)
    requires WithinPiece(|text|, sorted, marks, a, a, pos)
    ensures Piece(text, sorted, marks, a, a, pos) == text[pos..]
  {
  }

  lemma Regroup(text: string, pos: nat, hi: nat, rest: string)
    requires pos <= hi <= |text|
    ensures text[0..hi] + rest == text[..pos] + (text[pos..hi] + rest)
  {
    assert text[0..hi] == text[..pos] + text[pos..hi];
  }

  /** Nothing to the left of the next span to be cut has changed. */
  lemma PieceSplit(text: string, sorted: seq<Span>, marks: seq<string>, a: nat, b: nat, pos: nat)
    requires WithinPiece(|text|, sorted, marks, a, b, pos)
    ensures Piece(text, sorted, marks, a, b, 0) == text[..pos] + Piece(text, sorted, marks, a, b, pos)
  {
    hide Piece;
    if a < b {
      PieceUnfolds(text, sorted, marks, a, b, 0);
      PieceUnfolds(text, sorted, marks, a, b, pos);
      var rest := marks[b - 1] + Piece(text, sorted, marks, a, b - 1, sorted[b - 1].End());
      Regroup(text, pos, sorted[b - 1].index, rest);
    } else {
      PieceEmpty(text, sorted, marks, a, 0);
      PieceEmpty(text, sorted, marks, a, pos);
      assert text[0..] == text[..pos] + text[pos..];
    }
  }

  lemma CutOutStep(text: string, sorted: seq<Span>, marks: seq<string>, n: nat)
    requires Laid(|text|, sorted) && |marks| == |sorted| && 0 < n <= |sorted|
    ensures CutOut(Piece(text, sorted, marks, 0, n - 1, 0), sorted[n - 1], marks[n - 1]) ==
            Piece(text, sorted, marks, 0, n, 0)
  {
    var span := sorted[n - 1];
    PieceSplit(text, sorted, marks, 0, n - 1, span.index);
    PieceSplit(text, sorted, marks, 0, n - 1, span.End());
    var before := Piece(text, sorted, marks, 0, n - 1, 0);
    assert before[..span.index] == text[0..span.index];
    assert before[span.End()..] == Piece(text, sorted, marks, 0, n - 1, span.End());
  }

  lemma {:induction false} CutOutsArePiece(text: string, sorted: seq<Span>, marks: seq<string>, n: nat)
    requires Laid(|text|, sorted) && n <= |sorted| == |marks|
    ensures CutOuts(text, sorted, marks, n) == Piece(text, sorted, marks, 0, n, 0)
  {
    if n == 0 {
      assert text[0..] == text;
    } else {
      CutOutsArePiece(text, sorted, marks, n - 1);
      CutOutStep(text, sorted, marks, n);
    }
  }

  /** Where no occurrence of `p` starts, replacement copies. */
  lemma {:induction false} SkipClean(g: string, rest: string, p: string, v: string)
    requires p != "" && forall k :: 0 <= k < |g| ==> !(p <= (g + rest)[k..])
    ensures ReplaceAll(g + rest, p, v) == g + ReplaceAll(rest, p, v)
  {
    if g == "" {
      assert g + rest == rest;
    } else {
      assert (g + rest)[0..] == g + rest && (g + rest)[1..] == g[1..] + rest;
      forall k | 0 <= k < |g[1..]|
        ensures !(p <= (g[1..] + rest)[k..])
      {
        assert (g[1..] + rest)[k..] == (g + rest)[k + 1..];
      }
      SkipClean(g[1..], rest, p, v);
    }
  }

  /** An opening bracket first, a closing one last, and none in between. */
  predicate Bracketed(p: string) {
    |p| >= 2 && p[0] == '[' && p[|p| - 1] == ']' && Bracketless(p[1..|p| - 1])
  }

  lemma PlaceholderBracketed(kind: string, n: nat)
    requires Bracketless(kind)
    ensures Bracketed(Placeholder(kind, n))
  {
    var p := Placeholder(kind, n);
    assert p[1..|p| - 1] == kind + "_" + Decimal(n);
  }

  lemma NotAt(p: string, s: string, k: nat)
    requires !Occurs(p, s) && k <= |s|
    ensures !(p <= s[k..])
  {
  }

  /** No occurrence starts inside a stretch of text that is followed by nothing or by an opening bracket. */
  lemma GapIsClean(text: string, lo: nat, hi: nat, rest: string, p: string)
    requires lo <= hi <= |text| && !Occurs(p, text) && Bracketed(p)
    requires rest == "" || rest[0] == '['
    ensures forall k :: 0 <= k < |text[lo..hi]| ==> !(p <= (text[lo..hi] + rest)[k..])
  {
    var g := text[lo..hi];
    forall k | 0 <= k < |g|
      ensures !(p <= (g + rest)[k..])
    {
      var here := (g + rest)[k..];
      if k + |p| <= |g| {
        NotAt(p, text, lo + k);
        assert forall i :: 0 <= i < |p| ==> here[i] == text[lo + k..][i];
      } else if rest != "" {
        assert here[|g| - k] == rest[0];
        BracketOnlyFirst(p, |g| - k);
      }
    }
  }

  lemma BracketOnlyFirst(p: string, j: nat)
    requires Bracketed(p) && 0 < j < |p|
    ensures p[j] != '[' && (j < |p| - 1 ==> p[j] != ']')
  {
    if j < |p| - 1 {
      assert p[1..|p| - 1][j - 1] == p[j];
    }
  }

  /** No occurrence of one placeholder starts inside another one. */
  lemma OtherPlaceholderIsClean(q: string, rest: string, p: string)
    requires Bracketed(p) && Bracketed(q) && p != q
    ensures forall k :: 0 <= k < |q| ==> !(p <= (q + rest)[k..])
  {
    forall k | 0 <= k < |q|
      ensures !(p <= (q + rest)[k..])
    {
      var here := (q + rest)[k..];
      if k > 0 {
        BracketOnlyFirst(q, k);
        assert here[0] == q[k];
      } else if |p| < |q| {
        BracketOnlyFirst(q, |p| - 1);
        assert here[|p| - 1] == q[|p| - 1];
      } else if |q| < |p| {
        BracketOnlyFirst(p, |q| - 1);
        assert here[|q| - 1] == q[|q| - 1];
      } else {
        assert here[..|p|] == q;
      }
    }
  }

  lemma GapCopied(text: string, lo: nat, hi: nat, rest: string, p: string, v: string)
    requires lo <= hi <= |text| && !Occurs(p, text) && Bracketed(p)
    requires rest == "" || rest[0] == '['
    ensures ReplaceAll(text[lo..hi] + rest, p, v) == text[lo..hi] + ReplaceAll(rest, p, v)
  {
    GapIsClean(text, lo, hi, rest, p);
    SkipClean(text[lo..hi], rest, p, v);
  }

  lemma RestoreLast(text: string, span: Span, p: string)
    requires Genuine(text, span) && Bracketed(p) && !Occurs(p, text)
    ensures ReplaceAll(p + text[span.End()..], p, span.value) == span.value + text[span.End()..]
  {
    var tail := text[span.End()..];
    assert p <= p + tail && (p + tail)[|p|..] == tail;
    assert text[span.End()..|text|] + "" == tail;
    GapCopied(text, span.End(), |text|, "", p, span.value);
  }

  /** Pairwise different bracketed marks that the text does not contain. */
  ghost predicate FreshMarks(marks: seq<string>, text: string) {
    && (forall k :: 0 <= k < |marks| ==> Bracketed(marks[k]) && !Occurs(marks[k], text))
    && (forall i, j :: 0 <= i < j < |marks| ==> marks[i] != marks[j])
  }

  lemma SpanInPlace(text: string, pos: nat, span: Span)
    requires Genuine(text, span) && pos <= span.index
    ensures text[pos..] == text[pos..span.index] + (span.value + text[span.End()..])
  {
    assert text[span.index..] == span.value + text[span.End()..];
  }

  lemma RestoreOnly(text: string, sorted: seq<Span>, marks: seq<string>, a: nat, pos: nat)
    requires WithinPiece(|text|, sorted, marks, a, a + 1, pos) && Genuine(text, sorted[a])
    requires Bracketed(marks[a]) && !Occurs(marks[a], text)
    ensures ReplaceAll(Piece(text, sorted, marks, a, a + 1, pos), marks[a], sorted[a].value) == text[pos..]
  {
    hide Piece, ReplaceAll, Occurs;
    var span := sorted[a];
    PieceUnfolds(text, sorted, marks, a, a + 1, pos);
    PieceEmpty(text, sorted, marks, a, span.End());
    GapCopied(text, pos, span.index, marks[a] + text[span.End()..], marks[a], span.value);
    RestoreLast(text, span, marks[a]);
    SpanInPlace(text, pos, span);
  }

  /** Replacing the mark of the rightmost redacted span puts exactly that span back. */
  lemma {:induction false} RestoreRightmost(text: string, sorted: seq<Span>, marks: seq<string>, a: nat, b: nat,
                                            pos: nat)
    requires WithinPiece(|text|, sorted, marks, a, b, pos) && a < b && FreshMarks(marks, text)
    requires Genuine(text, sorted[a])
    ensures WithinPiece(|text|, sorted, marks, a + 1, b, pos)
    ensures ReplaceAll(Piece(text, sorted, marks, a, b, pos), marks[a], sorted[a].value) ==
            Piece(text, sorted, marks, a + 1, b, pos)
    decreases b
  {
    hide Piece, ReplaceAll, Occurs, Bracketed;
    if b == a + 1 {
      PieceEmpty(text, sorted, marks, a + 1, pos);
      RestoreOnly(text, sorted, marks, a, pos);
    } else {
      RestoreRightmost(text, sorted, marks, a, b - 1, sorted[b - 1].End());
      RestoreThroughNext(text, sorted, marks, a, b, pos);
    }
  }

  lemma RestoreThroughNext(text: string, sorted: seq<Span>, marks: seq<string>, a: nat, b: nat, pos: nat)
    requires WithinPiece(|text|, sorted, marks, a, b, pos) && WithinPiece(|text|, sorted, marks, a + 1, b, pos) &&
             a + 1 < b
    requires Bracketed(marks[a]) && Bracketed(marks[b - 1]) && marks[a] != marks[b - 1] && !Occurs(marks[a], text)
    requires ReplaceAll(Piece(text, sorted, marks, a, b - 1, sorted[b - 1].End()), marks[a], sorted[a].value)
          == Piece(text, sorted, marks, a + 1, b - 1, sorted[b - 1].End())
    ensures ReplaceAll(Piece(text, sorted, marks, a, b, pos), marks[a], sorted[a].value) ==
            Piece(text, sorted, marks, a + 1, b, pos)
  {
    hide Piece, ReplaceAll, Occurs, Bracketed;
    PieceUnfolds(text, sorted, marks, a, b, pos);
    PieceUnfolds(text, sorted, marks, a + 1, b, pos);
    GapAndMarkCopied(text, pos, sorted[b - 1].index, marks[b - 1],
      Piece(text, sorted, marks, a, b - 1, sorted[b - 1].End()),
                     marks[a], sorted[a].value);
  }

  lemma OtherCopied(q: string, rest: string, p: string, v: string)
    requires Bracketed(p) && Bracketed(q) && p != q
    ensures ReplaceAll(q + rest, p, v) == q + ReplaceAll(rest, p, v)
  {
    OtherPlaceholderIsClean(q, rest, p);
    SkipClean(q, rest, p, v);
  }

  lemma GapAndMarkCopied(text: string, lo: nat, hi: nat, q: string, rest: string, p: string, v: string)
    requires lo <= hi <= |text| && !Occurs(p, text) && Bracketed(p) && Bracketed(q) && p != q
    ensures ReplaceAll(text[lo..hi] + (q + rest), p, v) == text[lo..hi] + (q + ReplaceAll(rest, p, v))
  {
    GapCopied(text, lo, hi, q + rest, p, v);
    OtherCopied(q, rest, p, v);
  }

  /** After `n` keys, exactly the spans not yet restored are still redacted. */
  lemma {:induction false} RestoredSoFar(text: string, sorted: seq<Span>, marks: seq<string>, n: nat)
    requires Laid(|text|, sorted) && n <= |sorted| == |marks| && FreshMarks(marks, text) && Disjoint(text, sorted)
    ensures RestoreEach(Piece(text, sorted, marks, 0, |sorted|, 0), EntriesOf(sorted, marks, |sorted|), n)
         == Piece(text, sorted, marks, n, |sorted|, 0)
  {
    hide Piece, ReplaceAll, FreshMarks, Genuine;
    if n > 0 {
      RestoredSoFar(text, sorted, marks, n - 1);
      RestoreRightmost(text, sorted, marks, n - 1, |sorted|, 0);
    }
  }

  /** The text contains none of the placeholders that its redaction generates. */
  ghost predicate PlaceholderFree(text: string, spans: seq<Span>) {
    var sorted := SortDescending(spans);
    forall k :: 0 <= k < |sorted| ==> !Occurs(PlaceholderAt(sorted, k), text)
  }

  lemma MarksFresh(text: string, sorted: seq<Span>)
    requires Disjoint(text, sorted) && forall k :: 0 <= k < |sorted| ==> !Occurs(PlaceholderAt(sorted, k), text)
    ensures FreshMarks(Marks(sorted), text)
  {
    forall k | 0 <= k < |sorted|
      ensures Bracketed(Marks(sorted)[k])
    {
      assert Genuine(text, sorted[k]);
      PlaceholderBracketed(sorted[k].kind, CountKind(sorted, k, sorted[k].kind) + 1);
    }
    forall i, j | 0 <= i < j < |sorted|
      ensures Marks(sorted)[i] != Marks(sorted)[j]
    {
      PlaceholdersDistinct(sorted, i, j);
    }
  }

  lemma SortedLaid(text: string, spans: seq<Span>)
    requires Disjoint(text, spans)
    ensures Disjoint(text, SortDescending(spans)) && Laid(|text|, SortDescending(spans))
  {
    var sorted := SortDescending(spans);
    SortKeepsOrder(text, spans);
    forall i, j | 0 <= i < j < |sorted|
      ensures sorted[j].End() <= sorted[i].index
    {
      assert Apart(sorted[i], sorted[j]) && Genuine(text, sorted[i]) && Genuine(text, sorted[j]);
    }
  }

  /** What redaction followed by restoration makes of a text. */
  function RestoredRedaction(text: string, spans: seq<Span>): string {
    var sorted := SortDescending(spans);
    RestoreEach(CutOuts(text, sorted, Marks(sorted), |sorted|), EntriesOf(sorted, Marks(sorted), |sorted|), |sorted|)
  }

  /**
   * Redacting genuine, disjoint spans of a text without such placeholders, and restoring
   * the result, gives the text back.
   */
  lemma RoundTrip(text: string, spans: seq<Span>)
    requires Disjoint(text, spans) && PlaceholderFree(text, spans)
    ensures RestoredRedaction(text, spans) == text
  {
    var sorted := SortDescending(spans);
    SortedLaid(text, spans);
    MarksFresh(text, sorted);
    CutOutsArePiece(text, sorted, Marks(sorted), |sorted|);
    RestoredSoFar(text, sorted, Marks(sorted), |sorted|);
    assert text[0..] == text;
  }

  method RedactThenRestore(text: string, spans: seq<Span>) returns (redacted: string, restored: string)
    ensures restored == RestoredRedaction(text, spans)
    ensures Disjoint(text, spans) && PlaceholderFree(text, spans) ==> restored == text
  {
    var restoreMap;
    redacted, restoreMap := RedactPii(text, spans);
    restored := RestorePii(redacted, restoreMap);
    if Disjoint(text, spans) && PlaceholderFree(text, spans) {
      RoundTrip(text, spans);
    }
  }

  // ----- why both conditions are needed

  lemma FirstNumeral()
    ensures Decimal(1) == "1"
  {
  }

  lemma OneSpan(span: Span)
    requires span.kind == "E"
    ensures SortDescending([span]) == [span] && Marks([span]) == ["[E_1]"]
    ensures EntriesOf([span], ["[E_1]"], 1) == [Entry("[E_1]", span.value)]
  {
    assert [span][..0] == [];
    FirstNumeral();
    assert PlaceholderAt([span], 0) == "[E_1]";
  }

  lemma ReplaceTwice(p: string, v: string)
    requires p != ""
    ensures ReplaceAll(p + p, p, v) == v + v
  {
    assert (p + p)[|p|..] == p && p[|p|..] == "";
    assert ReplaceAll(p, p, v) == v + ReplaceAll("", p, v);
  }

  lemma RestoreStep(text: string, entries: seq<Entry>, n: nat)
    requires n < |entries| && forall k :: 0 <= k < |entries| ==> entries[k].placeholder != ""
    ensures RestoreEach(text, entries, 0) == text
    ensures RestoreEach(text, entries, n + 1) ==
            ReplaceAll(RestoreEach(text, entries, n), entries[n].placeholder, entries[n].original)
  {
  }

  lemma ReplaceHere(p: string, rest: string, v: string)
    requires p != ""
    ensures ReplaceAll(p + rest, p, v) == v + ReplaceAll(rest, p, v)
  {
    assert (p + rest)[|p|..] == rest;
  }

  lemma GenuineExample()
    ensures Disjoint("[E_1]x", [Span("E", "x", 5, 1)])
  {
  }

  lemma RestoredExample()
    ensures RestoredRedaction("[E_1]x", [Span("E", "x", 5, 1)]) == "xx"
  {
    hide RestoreEach, ReplaceAll, SortDescending, Marks, PlaceholderAt, EntriesOf;
    var text, span, p := "[E_1]x", Span("E", "x", 5, 1), "[E_1]";
    OneSpan(span);
    assert CutOuts(text, [span], [p], 1) == p + p;
    ReplaceTwice(p, "x");
    RestoreStep(p + p, [Entry(p, "x")], 0);
  }

  /** A text that already holds a placeholder comes back with the span's value in two places. */
  lemma TextWithPlaceholderNotRestored()
    ensures exists text, spans :: Disjoint(text, spans) && RestoredRedaction(text, spans) != text
  {
    GenuineExample();
    RestoredExample();
    assert |"xx"| != |"[E_1]x"|;
  }

  lemma OverlapSorted(a: Span, b: Span)
    requires a == Span("A", "ab", 0, 2) && b == Span("B", "b", 1, 1)
    ensures SortDescending([a, b]) == [b, a]
  {
    assert [a, b][..1] == [a] && [a][..0] == [];
    assert SortDescending([]) == [] && SortDescending([a]) == [a];
    assert Insert([a], b) == Insert([a][..0], b) + [a];
  }

  lemma OverlapMarks(a: Span, b: Span)
    requires a == Span("A", "ab", 0, 2) && b == Span("B", "b", 1, 1)
    ensures Marks([b, a]) == ["[B_1]", "[A_1]"]
  {
    FirstNumeral();
    assert PlaceholderAt([b, a], 0) == "[B_1]" && PlaceholderAt([b, a], 1) == "[A_1]" by {
      assert CountKind([b, a], 1, "A") == CountKind([b, a], 0, "A");
    }
  }

  lemma OverlapRedacted(sorted: seq<Span>, marks: seq<string>)
    requires sorted == [Span("B", "b", 1, 1), Span("A", "ab", 0, 2)] && marks == ["[B_1]", "[A_1]"]
    ensures CutOuts("ab", sorted, marks, 2) == "[A_1]B_1]"
    ensures EntriesOf(sorted, marks, 2) == [Entry("[B_1]", "b"), Entry("[A_1]", "ab")]
  {
    assert CutOuts("ab", sorted, marks, 1) == "a[B_1]";
    assert "a[B_1]"[2..] == "B_1]";
  }

  lemma AbsentMark(s: string)
    requires s == "[A_1]B_1]"
    ensures ReplaceAll(s, "[B_1]", "b") == s
  {
    var p := "[B_1]";
    assert s + "" == s;
    forall k | 0 <= k < |s|
      ensures !(p <= (s + "")[k..])
    {
      assert (s + "")[k..][0] == s[k];
      if k == 0 {
        assert (s + "")[k..][1] == s[1];
      }
    }
    SkipClean(s, "", p, "b");
  }

  /** Overlapping spans, as two patterns matching the same digits give, destroy a placeholder: nothing is restored. */
  lemma OverlapNotRestored()
    ensures RestoredRedaction("ab", [Span("A", "ab", 0, 2), Span("B", "b", 1, 1)]) != "ab"
  {
    hide RestoreEach, ReplaceAll, SortDescending, Marks, EntriesOf, CutOuts;
    var a, b := Span("A", "ab", 0, 2), Span("B", "b", 1, 1);
    OverlapSorted(a, b);
    OverlapMarks(a, b);
    OverlapRedacted([b, a], ["[B_1]", "[A_1]"]);
    var s, entries := "[A_1]B_1]", [Entry("[B_1]", "b"), Entry("[A_1]", "ab")];
    AbsentMark(s);
    RestoreStep(s, entries, 0);
    RestoreStep(s, entries, 1);
    assert s == "[A_1]" + "B_1]";
    ReplaceHere("[A_1]", "B_1]", "ab");
    LeftoverStays("B_1]", "[A_1]", "ab");
  }

  lemma LeftoverStays(s: string, p: string, v: string)
    requires s == "B_1]" && p == "[A_1]"
    ensures ReplaceAll(s, p, v) != ""
  {
    assert ReplaceAll(s, p, v) == [s[0]] + ReplaceAll(s[1..], p, v);
  }
}
