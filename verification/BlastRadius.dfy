/** The blast-radius guard: a line diff by multiplicities, and the limits it is checked against. */
module BlastRadius {
  import opened Prelude

  datatype Config = Config(
    maxDeletionRatio: real, minLinesToEnforce: int, maxAbsoluteDeletion: int,
    maxAbsoluteAddition: int, maxAdditionRatio: real, maxTotalNewLines: int)

  datatype Reason = TooManyDeleted | DeletionRatio | TooManyAdded | AdditionRatio | TooManyLines

  datatype Report = Report(allowed: bool, reason: Option<Reason>, deletedLines: nat, addedLines: nat, totalLines: nat,
    totalNewLines: nat)

  /** `split('\n')`: the lines of a text, at least one. */
  function Lines(content: string): (lines: seq<string>)
    ensures lines != []
  {
    if content == "" then [""]
    else
      var last := content[|content| - 1];
      var before := Lines(content[..|content| - 1]);
      if last == '\n' then before + [""]
      else before[..|before| - 1] + [before[|before| - 1] + [last]]
  }

  /** The lines with a newline between any two. */
  function Joined(lines: seq<string>): string {
    if lines == [] then ""
    else if |lines| == 1 then lines[0]
    else Joined(lines[..|lines| - 1]) + "\n" + lines[|lines| - 1]
  }

  ghost predicate NewlineFree(lines: seq<string>) {
    forall i :: 0 <= i < |lines| ==> '\n' !in lines[i]
  }

  lemma LinesAppend(content: string, ch: char)
    ensures var before := Lines(content);
            Lines(content + [ch]) == if ch == '\n' then before + [""]
                                     else before[..|before| - 1] + [before[|before| - 1] + [ch]]
  {
    assert (content + [ch])[..|content|] == content;
  }

  lemma JoinedAppend(lines: seq<string>, line: string)
    ensures Joined(lines + [line]) == if lines == [] then line else Joined(lines) + "\n" + line
  {
    assert (lines + [line])[..|lines|] == lines;
  }

  /** Text and lines determine each other: no line holds a newline, and joined by newlines they are the text. */
  lemma {:induction false} LinesJoined(content: string)
    ensures NewlineFree(Lines(content)) && Joined(Lines(content)) == content
  {
    hide Lines, Joined;
    if content == "" {
      NothingJoined();
    } else {
      var init, ch := content[..|content| - 1], content[|content| - 1];
      assert content == init + [ch];
      LinesJoined(init);
      LinesAppend(init, ch);
      var lines := Lines(init);
      var before, last := lines[..|lines| - 1], lines[|lines| - 1];
      assert lines == before + [last];
      JoinedAppend(before, last);
      JoinedAppend(before, last + [ch]);
      JoinedAppend(lines, "");
    }
  }

  lemma NothingJoined()
    ensures Lines("") == [""] && Joined([""]) == ""
  {
  }

  lemma {:induction false} JoinedLines(lines: seq<string>)
    requires lines != [] && NewlineFree(lines)
    ensures Lines(Joined(lines)) == lines
    decreases |lines|, |lines[|lines| - 1]|
  {
    hide Lines, Joined;
    var init, last := lines[..|lines| - 1], lines[|lines| - 1];
    assert lines == init + [last];
    JoinedAppend(init, last);
    if last != "" {
      var shorter, ch := last[..|last| - 1], last[|last| - 1];
      assert last == shorter + [ch];
      JoinedLines(init + [shorter]);
      JoinedAppend(init, shorter);
      LinesAppend(Joined(init + [shorter]), ch);
      assert Joined(lines) == Joined(init + [shorter]) + [ch];
    } else if init != [] {
      JoinedLines(init);
      LinesAppend(Joined(init), '\n');
      assert Joined(lines) == Joined(init) + ['\n'];
    } else {
      NothingJoined();
    }
  }

  method CountLines(lines: seq<string>) returns (counts: map<string, nat>)
    ensures counts.Keys == set line | line in lines
    ensures forall line :: line in counts ==> counts[line] == multiset(lines)[line]
  {
    counts := map[];
    for i := 0 to |lines|
      invariant forall line :: line in counts <==> line in lines[..i]
      invariant forall line :: line in counts ==> counts[line] == multiset(lines[..i])[line]
    {
      assert lines[..i + 1] == lines[..i] + [lines[i]];
      var line := lines[i];
      counts := counts[line := (if line in counts then counts[line] else 0) + 1];
    }
    assert lines[..|lines|] == lines;
  }

  /** What `from` has more of than `to`, line by line. */
  ghost function Excess(from: seq<string>, to: seq<string>): multiset<string> {
    multiset(from) - multiset(to)
  }

  /** One of the two walks over the count maps. */
  method SumExcess(fromCounts: map<string, nat>, toCounts: map<string, nat>, ghost from: seq<string>,
                   ghost to: seq<string>)
    returns (total: nat)
    requires fromCounts.Keys == (set line | line in from) && toCounts.Keys == (set line | line in to)
    requires forall line :: line in fromCounts ==> fromCounts[line] == multiset(from)[line]
    requires forall line :: line in toCounts ==> toCounts[line] == multiset(to)[line]
    ensures total == |Excess(from, to)|
  {
    total := 0;
    var keys := fromCounts.Keys;
    ghost var left := Excess(from, to);
    while keys != {}
      invariant keys <= fromCounts.Keys
      invariant total + |left| == |Excess(from, to)|
      invariant forall line :: left[line] == if line in keys then Excess(from, to)[line] else 0
      decreases keys
    {
      var line :| line in keys;
      var fromCount := fromCounts[line];
      var toCount := if line in toCounts then toCounts[line] else 0;
      assert toCount == multiset(to)[line];
      if fromCount > toCount {
        total := total + (fromCount - toCount);
      }
      left := left[line := 0];
      keys := keys - {line};
    }
    assert left == multiset{};
  }

  function Ratio(lines: nat, total: nat): real {
    if total > 0 then lines as real / total as real else 0.0
  }

  /** The first limit that an edit breaks, in the order they are checked. */
  function Violation(deleted: nat, added: nat, total: nat, totalNew: nat, cfg: Config): Option<Reason> {
    if deleted > cfg.maxAbsoluteDeletion then Some(TooManyDeleted)
    else if Ratio(deleted, total) > cfg.maxDeletionRatio then Some(DeletionRatio)
    else if added > cfg.maxAbsoluteAddition then Some(TooManyAdded)
    else if Ratio(added, total) > cfg.maxAdditionRatio then Some(AdditionRatio)
    else if totalNew > cfg.maxTotalNewLines then Some(TooManyLines)
    else None
  }

  lemma RatioExceeds(lines: nat, total: nat, limit: real)
    requires total > 0
    ensures Ratio(lines, total) > limit <==> lines as real > limit * total as real
  {
    var t := total as real;
    assert lines as real == Ratio(lines, total) * t;
    if Ratio(lines, total) > limit {
      assert (Ratio(lines, total) - limit) * t > 0.0;
    } else {
      assert (limit - Ratio(lines, total)) * t >= 0.0;
    }
  }

  /** Nothing is reported exactly when all five limits are kept, and what is reported is the first one broken. */
  lemma ViolationIsFirstBroken(deleted: nat, added: nat, total: nat, totalNew: nat, cfg: Config)
    requires total > 0
    ensures var reason := Violation(deleted, added, total, totalNew, cfg);
            var tooManyDeleted := deleted > cfg.maxAbsoluteDeletion;
            var deletedShare := deleted as real > cfg.maxDeletionRatio * total as real;
            var tooManyAdded := added > cfg.maxAbsoluteAddition;
            var addedShare := added as real > cfg.maxAdditionRatio * total as real;
            var tooManyLines := totalNew > cfg.maxTotalNewLines;
            && (reason == Some(TooManyDeleted) <==> tooManyDeleted)
            && (reason == Some(DeletionRatio) <==> !tooManyDeleted && deletedShare)
            && (reason == Some(TooManyAdded) <==> !tooManyDeleted && !deletedShare && tooManyAdded)
            && (reason == Some(AdditionRatio) <==>
                  !tooManyDeleted && !deletedShare && !tooManyAdded && addedShare)
            && (reason == Some(TooManyLines) <==>
                  !tooManyDeleted && !deletedShare && !tooManyAdded && !addedShare && tooManyLines)
            && (reason == None <==>
                  !tooManyDeleted && !deletedShare && !tooManyAdded && !addedShare && !tooManyLines)
  {
    RatioExceeds(deleted, total, cfg.maxDeletionRatio);
    RatioExceeds(added, total, cfg.maxAdditionRatio);
  }

  ghost function Verdict(old': seq<string>, new': seq<string>, cfg: Config): Option<Reason> {
    if |old'| < cfg.minLinesToEnforce then None
    else Violation(|Excess(old', new')|, |Excess(new', old')|, |old'|, |new'|, cfg)
  }

  /** The checks, one limit after the other. */
  method BrokenLimit(deletedLines: nat, addedLines: nat, totalLines: nat, totalNewLines: nat, cfg: Config)
    returns (reason: Option<Reason>)
    ensures reason == Violation(deletedLines, addedLines, totalLines, totalNewLines, cfg)
  {
    reason := None;
    if deletedLines > cfg.maxAbsoluteDeletion {
      reason := Some(TooManyDeleted);
    } else if Ratio(deletedLines, totalLines) > cfg.maxDeletionRatio {
      reason := Some(DeletionRatio);
    } else if addedLines > cfg.maxAbsoluteAddition {
      reason := Some(TooManyAdded);
    } else if Ratio(addedLines, totalLines) > cfg.maxAdditionRatio {
      reason := Some(AdditionRatio);
    } else if totalNewLines > cfg.maxTotalNewLines {
      reason := Some(TooManyLines);
    }
  }

  /** The multiplicity-aware diff. */
  method DiffLines(oldLines: seq<string>, newLines: seq<string>) returns (deletedLines: nat, addedLines: nat)
    ensures deletedLines == |Excess(oldLines, newLines)| && addedLines == |Excess(newLines, oldLines)|
  {
    var oldCounts := CountLines(oldLines);
    var newCounts := CountLines(newLines);
    deletedLines := SumExcess(oldCounts, newCounts, oldLines, newLines);
    addedLines := SumExcess(newCounts, oldCounts, newLines, oldLines);
  }

  /**
   * Below the floor everything is allowed. From it on an edit is allowed exactly when it
   * keeps all limits, and the reason names a broken one with none before it broken.
   */
  method ComputeBlastRadius(oldContent: string, newContent: string, cfg: Config) returns (r: Report)
    ensures r.totalLines < cfg.minLinesToEnforce ==> r.allowed
    ensures r.totalLines >= cfg.minLinesToEnforce ==>
              (r.allowed <==>
                 && r.deletedLines <= cfg.maxAbsoluteDeletion
                 && r.deletedLines as real <= cfg.maxDeletionRatio * r.totalLines as real
                 && r.addedLines <= cfg.maxAbsoluteAddition
                 && r.addedLines as real <= cfg.maxAdditionRatio * r.totalLines as real
                 && r.totalNewLines <= cfg.maxTotalNewLines)
    ensures r.reason == Some(TooManyDeleted) ==> r.deletedLines > cfg.maxAbsoluteDeletion
    ensures r.reason == Some(DeletionRatio) ==>
              && r.deletedLines as real > cfg.maxDeletionRatio * r.totalLines as real
              && r.deletedLines <= cfg.maxAbsoluteDeletion
    ensures r.reason == Some(TooManyAdded) ==>
              && r.addedLines > cfg.maxAbsoluteAddition
              && r.deletedLines <= cfg.maxAbsoluteDeletion
              && r.deletedLines as real <= cfg.maxDeletionRatio * r.totalLines as real
    ensures r.reason == Some(AdditionRatio) ==>
              && r.addedLines as real > cfg.maxAdditionRatio * r.totalLines as real
              && r.deletedLines <= cfg.maxAbsoluteDeletion && r.addedLines <= cfg.maxAbsoluteAddition
              && r.deletedLines as real <= cfg.maxDeletionRatio * r.totalLines as real
    ensures r.reason == Some(TooManyLines) ==>
              && r.totalNewLines > cfg.maxTotalNewLines
              && r.deletedLines <= cfg.maxAbsoluteDeletion && r.addedLines <= cfg.maxAbsoluteAddition
              && r.deletedLines as real <= cfg.maxDeletionRatio * r.totalLines as real
              && r.addedLines as real <= cfg.maxAdditionRatio * r.totalLines as real
    ensures var old', new' := Lines(oldContent), Lines(newContent);
            && r.totalLines == |old'| && r.totalNewLines == |new'|
            && r.reason == Verdict(old', new', cfg) && (r.allowed <==> r.reason == None)
            && (|old'| >= cfg.minLinesToEnforce ==>
                  r.deletedLines == |Excess(old', new')| && r.addedLines == |Excess(new', old')|)
            && (|old'| < cfg.minLinesToEnforce ==> r.deletedLines == r.addedLines == 0)
  {
    hide Lines, Excess, Ratio, Violation;
    var oldLines, newLines := Lines(oldContent), Lines(newContent);
    var totalLines, totalNewLines := |oldLines|, |newLines|;
    if totalLines < cfg.minLinesToEnforce {
      return Report(true, None, 0, 0, totalLines, totalNewLines);
    }
    var deletedLines, addedLines := DiffLines(oldLines, newLines);
    ViolationIsFirstBroken(deletedLines, addedLines, totalLines, totalNewLines, cfg);
    var reason := BrokenLimit(deletedLines, addedLines, totalLines, totalNewLines, cfg);
    r := Report(reason == None, reason, deletedLines, addedLines, totalLines, totalNewLines);
  }

  // ----- what the counts mean

  lemma CommonPart(a: multiset<string>, b: multiset<string>)
    ensures |a * b| + |a - b| == |a|
  {
    assert a == a * b + (a - b);
  }

  /** Deletions and additions account for the change in length. */
  lemma CountsBalance(old': seq<string>, new': seq<string>)
    ensures |old'| - |Excess(old', new')| + |Excess(new', old')| == |new'|
  {
    var a, b := multiset(old'), multiset(new');
    CommonPart(a, b);
    CommonPart(b, a);
    assert a * b == b * a;
    assert |a| == |old'| && |b| == |new'|;
  }

  /** `c` is `s` with some lines left out. */
  ghost predicate Subsequence(c: seq<string>, s: seq<string>) {
    if c == [] then true
    else if s == [] then false
    else (c[|c| - 1] == s[|s| - 1] && Subsequence(c[..|c| - 1], s[..|s| - 1])) || Subsequence(c, s[..|s| - 1])
  }

  lemma {:induction false} SubsequenceContained(c: seq<string>, s: seq<string>)
    requires Subsequence(c, s)
    ensures multiset(c) <= multiset(s)
  {
    if c != [] {
      var s' := s[..|s| - 1];
      assert s == s' + [s[|s| - 1]];
      if c[|c| - 1] == s[|s| - 1] && Subsequence(c[..|c| - 1], s') {
        SubsequenceContained(c[..|c| - 1], s');
        assert c == c[..|c| - 1] + [c[|c| - 1]];
      } else {
        SubsequenceContained(c, s');
      }
    }
  }

  lemma ContainedIsSmaller(a: multiset<string>, b: multiset<string>)
    requires a <= b
    ensures |a| <= |b|
  {
    assert b == a + (b - a);
  }

  /** A line diff keeps some common subsequence of the two texts: none deletes or adds fewer lines than counted. */
  lemma NoDiffDoesLess(old': seq<string>, new': seq<string>, kept: seq<string>)
    requires Subsequence(kept, old') && Subsequence(kept, new')
    ensures |old'| - |kept| >= |Excess(old', new')|
    ensures |new'| - |kept| >= |Excess(new', old')|
  {
    SubsequenceContained(kept, old');
    SubsequenceContained(kept, new');
    var a, b := multiset(old'), multiset(new');
    ContainedIsSmaller(multiset(kept), a * b);
    CommonPart(a, b);
    CommonPart(b, a);
    assert a * b == b * a;
    assert |a| == |old'| && |b| == |new'| && |multiset(kept)| == |kept|;
  }

  /** Every limit of `looser` is at least as permissive. */
  predicate Looser(cfg: Config, looser: Config) {
    && cfg.maxDeletionRatio <= looser.maxDeletionRatio && cfg.minLinesToEnforce <= looser.minLinesToEnforce
    && cfg.maxAbsoluteDeletion <= looser.maxAbsoluteDeletion && cfg.maxAbsoluteAddition <= looser.maxAbsoluteAddition
    && cfg.maxAdditionRatio <= looser.maxAdditionRatio && cfg.maxTotalNewLines <= looser.maxTotalNewLines
  }

  /** Loosening limits never turns an allowed edit into a blocked one. */
  lemma LooserAllowsMore(old': seq<string>, new': seq<string>, cfg: Config, looser: Config)
    requires Looser(cfg, looser) && Verdict(old', new', cfg) == None
    ensures Verdict(old', new', looser) == None
  {
  }

  /** Reordering lines is invisible: any permutation of the lines counts as no deletion and no addition. */
  lemma PermutationInvisibleIff(old': seq<string>, new': seq<string>)
    ensures multiset(old') == multiset(new') <==> |Excess(old', new')| == 0 && |Excess(new', old')| == 0
  {
    var a, b := multiset(old'), multiset(new');
    if |a - b| == 0 && |b - a| == 0 {
      assert a == a * b + (a - b) && b == b * a + (b - a);
      assert a * b == b * a;
    }
  }
}
