/** Policy integrity: the byte stream that is hashed for a directory, and the cached mid-session check. */
module Integrity {
  import opened Prelude

  const NUL: char := 0 as char

  datatype PolicyFile = PolicyFile(path: string, content: string)

  // ----- the hashed stream

  function StreamOf(files: seq<PolicyFile>): string {
    if files == [] then ""
    else StreamOf(files[..|files| - 1]) + files[|files| - 1].path + [NUL] + files[|files| - 1].content + [NUL]
  }

  /** Sorting by path, one file inserted after the other. */
  function Insert(le: (string, string) -> bool, sorted: seq<PolicyFile>, x: PolicyFile): seq<PolicyFile> {
    if sorted == [] || le(sorted[|sorted| - 1].path, x.path) then sorted + [x]
    else Insert(le, sorted[..|sorted| - 1], x) + [sorted[|sorted| - 1]]
  }

  function SortByPath(le: (string, string) -> bool, files: seq<PolicyFile>): seq<PolicyFile> {
    if files == [] then [] else Insert(le, SortByPath(le, files[..|files| - 1]), files[|files| - 1])
  }

  /** `readDir` may enumerate `files` in any order; the digest is of the stream of the sorted files. */
  method CalculateIntegrityHash(files: seq<PolicyFile>, le: (string, string) -> bool, digest: string -> string)
    returns (hash: string, fileCount: nat)
    ensures hash == digest(StreamOf(SortByPath(le, files))) && fileCount == |SortByPath(le, files)|
  {
    var sorted := SortByPath(le, files);
    var fed := "";
    for i := 0 to |sorted|
      invariant fed == StreamOf(sorted[..i])
    {
      assert sorted[..i + 1][..i] == sorted[..i];
      fed := fed + sorted[i].path;
      fed := fed + [NUL];
      fed := fed + sorted[i].content;
      fed := fed + [NUL];
    }
    assert sorted[..|sorted|] == sorted;
    return digest(fed), |sorted|;
  }

  ghost predicate TotalOrder(le: (string, string) -> bool) {
    && (forall a, b :: le(a, b) || le(b, a))
    && (forall a, b :: le(a, b) && le(b, a) ==> a == b)
    && (forall a, b, c :: le(a, b) && le(b, c) ==> le(a, c))
  }

  ghost predicate Sorted(le: (string, string) -> bool, files: seq<PolicyFile>) {
    forall i, j :: 0 <= i < j < |files| ==> le(files[i].path, files[j].path)
  }

  ghost predicate DistinctPaths(files: seq<PolicyFile>) {
    forall i, j :: 0 <= i < j < |files| ==> files[i].path != files[j].path
  }

  lemma {:induction false} InsertAdds(le: (string, string) -> bool, sorted: seq<PolicyFile>, x: PolicyFile)
    ensures multiset(Insert(le, sorted, x)) == multiset(sorted) + multiset{x}
  {
    if sorted != [] && !le(sorted[|sorted| - 1].path, x.path) {
      assert sorted == sorted[..|sorted| - 1] + [sorted[|sorted| - 1]];
      InsertAdds(le, sorted[..|sorted| - 1], x);
    }
  }

  lemma {:induction false} InsertSorts(le: (string, string) -> bool, sorted: seq<PolicyFile>, x: PolicyFile)
    requires TotalOrder(le) && Sorted(le, sorted)
    ensures Sorted(le, Insert(le, sorted, x))
    ensures multiset(Insert(le, sorted, x)) == multiset(sorted) + multiset{x}
  {
    InsertAdds(le, sorted, x);
    if sorted != [] && !le(sorted[|sorted| - 1].path, x.path) {
      var init, last := sorted[..|sorted| - 1], sorted[|sorted| - 1];
      InsertSorts(le, init, x);
      forall i | 0 <= i < |Insert(le, init, x)|
        ensures le(Insert(le, init, x)[i].path, last.path)
      {
        assert Insert(le, init, x)[i] in multiset(init) + multiset{x};
      }
    }
  }

  lemma {:induction false} SortSorts(le: (string, string) -> bool, files: seq<PolicyFile>)
    requires TotalOrder(le)
    ensures Sorted(le, SortByPath(le, files)) && multiset(SortByPath(le, files)) == multiset(files)
  {
    if files != [] {
      var init := files[..|files| - 1];
      assert files == init + [files[|files| - 1]];
      SortSorts(le, init);
      InsertSorts(le, SortByPath(le, init), files[|files| - 1]);
    }
  }

  /** Two sorted arrangements of the same files with distinct paths end in the same file. */
  lemma SameLast(le: (string, string) -> bool, a: seq<PolicyFile>, b: seq<PolicyFile>)
    requires TotalOrder(le) && Sorted(le, a) && Sorted(le, b) && DistinctPaths(a)
    requires multiset(a) == multiset(b) && a != [] && b != []
    ensures a[|a| - 1] == b[|b| - 1]
  {
    var x, y := a[|a| - 1], b[|b| - 1];
    assert x in multiset(b) && y in multiset(a);
    var i :| 0 <= i < |b| && b[i] == x;
    var j :| 0 <= j < |a| && a[j] == y;
    assert le(x.path, y.path);
    assert le(y.path, x.path);
  }

  lemma InitMultiset(a: seq<PolicyFile>)
    requires a != []
    ensures multiset(a[..|a| - 1]) == multiset(a) - multiset{a[|a| - 1]}
  {
    assert a == a[..|a| - 1] + [a[|a| - 1]];
  }

  lemma SameLength(a: seq<PolicyFile>, b: seq<PolicyFile>)
    requires multiset(a) == multiset(b)
    ensures |a| == |b|
  {
    assert |multiset(a)| == |a| && |multiset(b)| == |b|;
  }

  /** Files with distinct paths have only one sorted arrangement. */
  lemma {:induction false} SortedUnique(le: (string, string) -> bool, a: seq<PolicyFile>, b: seq<PolicyFile>)
    requires TotalOrder(le) && Sorted(le, a) && Sorted(le, b) && DistinctPaths(a)
    requires multiset(a) == multiset(b)
    ensures a == b
  {
    SameLength(a, b);
    if a != [] {
      SameLast(le, a, b);
      InitMultiset(a);
      InitMultiset(b);
      SortedUnique(le, a[..|a| - 1], b[..|b| - 1]);
      assert a == a[..|a| - 1] + [a[|a| - 1]] && b == b[..|b| - 1] + [b[|b| - 1]];
    }
  }

  lemma DistinctOnce(files: seq<PolicyFile>, k: nat)
    requires DistinctPaths(files) && k < |files|
    ensures multiset(files)[files[k]] == 1
  {
    assert files == files[..k] + [files[k]] + files[k + 1..];
    assert files[k] !in files[..k] && files[k] !in files[k + 1..];
  }

  lemma TwiceCounts(a: seq<PolicyFile>, i: nat, j: nat)
    requires i < j < |a| && a[i] == a[j]
    ensures multiset(a)[a[i]] >= 2
  {
    assert a == a[..j] + [a[j]] + a[j + 1..];
    assert a[..j][i] == a[i];
  }

  /** A permutation of files with distinct paths has distinct paths. */
  lemma PermutedPathsDistinct(files: seq<PolicyFile>, a: seq<PolicyFile>)
    requires DistinctPaths(files) && multiset(a) == multiset(files)
    ensures DistinctPaths(a)
  {
    forall i, j | 0 <= i < j < |a|
      ensures a[i].path != a[j].path
    {
      assert a[i] in multiset(files) && a[j] in multiset(files);
      var k :| 0 <= k < |files| && files[k] == a[i];
      var l :| 0 <= l < |files| && files[l] == a[j];
      DistinctOnce(files, k);
      if a[i] == a[j] {
        TwiceCounts(a, i, j);
      }
    }
  }

  /** The stream does not depend on the order in which the files are enumerated. */
  lemma StreamOrderIndependent(le: (string, string) -> bool, files: seq<PolicyFile>, files': seq<PolicyFile>)
    requires TotalOrder(le) && DistinctPaths(files) && multiset(files) == multiset(files')
    ensures StreamOf(SortByPath(le, files)) == StreamOf(SortByPath(le, files'))
  {
    SortSorts(le, files);
    SortSorts(le, files');
    PermutedPathsDistinct(files, SortByPath(le, files));
    SortedUnique(le, SortByPath(le, files), SortByPath(le, files'));
  }

  predicate NulFree(s: string) {
    forall k :: 0 <= k < |s| ==> s[k] != NUL
  }

  ghost predicate NulFreeFiles(files: seq<PolicyFile>) {
    forall i :: 0 <= i < |files| ==> NulFree(files[i].path) && NulFree(files[i].content)
  }

  /** A text without separator, between two separators, is read back from the end. */
  lemma LastField(a: string, x: string, b: string, y: string)
    requires NulFree(x) && NulFree(y)
    requires a == "" || a[|a| - 1] == NUL
    requires b == "" || b[|b| - 1] == NUL
    requires a + x == b + y
    ensures a == b && x == y
  {
    var s := a + x;
    forall k | |a| <= k < |s|
      ensures s[k] != NUL
    {
      assert s[k] == x[k - |a|];
    }
    forall k | |b| <= k < |s|
      ensures s[k] != NUL
    {
      assert s[k] == y[k - |b|];
    }
    assert a != "" ==> s[|a| - 1] == NUL;
    assert b != "" ==> s[|b| - 1] == NUL;
    assert |a| == |b|;
    assert a == s[..|a|] && b == s[..|b|];
    assert x == s[|a|..] && y == s[|b|..];
  }

  lemma StreamEndsInNul(files: seq<PolicyFile>)
    ensures StreamOf(files) == "" <==> files == []
    ensures files != [] ==> StreamOf(files)[|StreamOf(files)| - 1] == NUL
  {
  }

  /** Different lists of files give different streams: nothing moves between paths and contents, or between files. */
  lemma {:induction false} StreamInjective(a: seq<PolicyFile>, b: seq<PolicyFile>)
    requires NulFreeFiles(a) && NulFreeFiles(b) && StreamOf(a) == StreamOf(b)
    ensures a == b
  {
    hide NulFree;
    StreamEndsInNul(a);
    StreamEndsInNul(b);
    if a != [] {
      var a', x, b', y := a[..|a| - 1], a[|a| - 1], b[..|b| - 1], b[|b| - 1];
      assert NulFree(x.path) && NulFree(x.content) && NulFree(y.path) && NulFree(y.content);
      StreamEndsInNul(a');
      StreamEndsInNul(b');
      var s := StreamOf(a);
      var p, q := StreamOf(a') + x.path + [NUL], StreamOf(b') + y.path + [NUL];
      assert s == p + x.content + [NUL] == q + y.content + [NUL];
      assert s[..|s| - 1] == p + x.content == q + y.content;
      LastField(p, x.content, q, y.content);
      assert p[..|p| - 1] == StreamOf(a') + x.path && q[..|q| - 1] == StreamOf(b') + y.path;
      LastField(StreamOf(a'), x.path, StreamOf(b'), y.path);
      StreamInjective(a', b');
      assert a == a' + [x] && b == b' + [y];
    }
  }

  /** With an injective digest, the directory hash tells any two sets of files apart. */
  lemma HashTellsApart(le: (string, string) -> bool, digest: string -> string, files: seq<PolicyFile>,
                       files': seq<PolicyFile>)
    requires TotalOrder(le) && NulFreeFiles(files) && NulFreeFiles(files') && DistinctPaths(files)
    requires forall s, s' :: digest(s) == digest(s') ==> s == s'
    ensures digest(StreamOf(SortByPath(le, files))) == digest(StreamOf(SortByPath(le, files'))) <==>
            multiset(files) == multiset(files')
  {
    SortSorts(le, files);
    SortSorts(le, files');
    if multiset(files) == multiset(files') {
      StreamOrderIndependent(le, files, files');
    }
    if StreamOf(SortByPath(le, files)) == StreamOf(SortByPath(le, files')) {
      NulFreeSorted(le, files);
      NulFreeSorted(le, files');
      StreamInjective(SortByPath(le, files), SortByPath(le, files'));
    }
  }

  lemma NulFreeSorted(le: (string, string) -> bool, files: seq<PolicyFile>)
    requires TotalOrder(le) && NulFreeFiles(files)
    ensures NulFreeFiles(SortByPath(le, files))
  {
    SortSorts(le, files);
    var a := SortByPath(le, files);
    forall i | 0 <= i < |a|
      ensures NulFree(a[i].path) && NulFree(a[i].content)
    {
      assert a[i] in multiset(files);
      var k :| 0 <= k < |files| && files[k] == a[i];
    }
  }

  /** Without that condition the separator does not separate: one file can hash like two. */
  lemma NulInContentCollides()
    ensures var one, two := [PolicyFile("a", "x" + [NUL] + "b" + [NUL] + "y")],
            [PolicyFile("a", "x"), PolicyFile("b", "y")];
            one != two && StreamOf(one) == StreamOf(two)
  {
    var one, two := [PolicyFile("a", "x" + [NUL] + "b" + [NUL] + "y")], [PolicyFile("a", "x"), PolicyFile("b", "y")];
    assert one[..0] == [] && two[..1] == [two[0]] && two[..1][..0] == [];
    assert StreamOf(two[..1]) == "a" + [NUL] + "x" + [NUL];
    assert StreamOf(one) == "a" + [NUL] + ("x" + [NUL] + "b" + [NUL] + "y") + [NUL];
    assert StreamOf(two) == "a" + [NUL] + "x" + [NUL] + "b" + [NUL] + "y" + [NUL];
  }

  // ----- collecting the files of a directory

  /**
   * A directory is its entries in the order in which they are enumerated; `Other` is
   * neither file nor directory, or unreadable.
   */
  datatype Node = File(content: string) | Dir(entries: seq<Entry>) | Other

  datatype Entry = Entry(name: string, node: Node)

  function Under(dir: string, files: seq<PolicyFile>): (r: seq<PolicyFile>)
    ensures |r| == |files|
  {
    seq(|files|, i requires 0 <= i < |files| => PolicyFile(dir + files[i].path, files[i].content))
  }

  /** The files of a directory, with their paths relative to it. */
  function Collect(entries: seq<Entry>): seq<PolicyFile>
    decreases entries
  {
    if entries == [] then [] else Collect(entries[..|entries| - 1]) + CollectEntry(entries[|entries| - 1])
  }

  function CollectEntry(e: Entry): seq<PolicyFile>
    decreases e
  {
    match e.node
    case File(content) => [PolicyFile(e.name, content)]
    case Dir(entries) => Under(e.name + "/", Collect(entries))
    case Other => []
  }

  lemma UnderUnder(a: string, b: string, files: seq<PolicyFile>)
    ensures Under(a, Under(b, files)) == Under(a + b, files)
  {
    forall i | 0 <= i < |files|
      ensures Under(a, Under(b, files))[i] == Under(a + b, files)[i]
    {
      assert a + (b + files[i].path) == a + b + files[i].path;
    }
  }

  /** `walk`: appends the files of the directory `dir` to the result collected so far. */
  method CollectFiles(dir: string, entries: seq<Entry>, collected: seq<PolicyFile>) returns (result: seq<PolicyFile>)
    ensures result == collected + Under(dir, Collect(entries))
    decreases entries
  {
    result := collected;
    for i := 0 to |entries|
      invariant result == collected + Under(dir, Collect(entries[..i]))
    {
      var e := entries[i];
      assert entries[..i + 1][..i] == entries[..i];
      match e.node
      case File(content) =>
        result := result + [PolicyFile(dir + e.name, content)];
      case Dir(inner) =>
        UnderUnder(dir, e.name + "/", Collect(inner));
        assert dir + e.name + "/" == dir + (e.name + "/");
        result := CollectFiles(dir + e.name + "/", inner, result);
      case Other =>
    }
    assert entries[..|entries|] == entries;
  }

  predicate SlashFree(s: string) {
    forall k :: 0 <= k < |s| ==> s[k] != '/'
  }

  /** Names within one directory differ and contain no separator. */
  ghost predicate WellFormed(entries: seq<Entry>)
    decreases entries
  {
    && (forall i, j :: 0 <= i < j < |entries| ==> entries[i].name != entries[j].name)
    && forall i :: 0 <= i < |entries| ==>
       SlashFree(entries[i].name) && (entries[i].node.Dir? ==> WellFormed(entries[i].node.entries))
  }

  /** What opening the file at `path` gives. */
  ghost predicate Holds(entries: seq<Entry>, f: PolicyFile)
    decreases entries
  {
    exists i :: 0 <= i < |entries| && EntryHolds(entries[i], f)
  }

  ghost predicate EntryHolds(e: Entry, f: PolicyFile)
    decreases e
  {
    match e.node
    case File(content) => f == PolicyFile(e.name, content)
    case Dir(inner) =>
      && |e.name| < |f.path| && f.path[..|e.name| + 1] == e.name + "/"
      && Holds(inner, PolicyFile(f.path[|e.name| + 1..], f.content))
    case Other => false
  }

  lemma {:induction false} CollectedIffHeld(entries: seq<Entry>, f: PolicyFile)
    ensures f in Collect(entries) <==> Holds(entries, f)
    decreases entries
  {
    if entries != [] {
      var init, e := entries[..|entries| - 1], entries[|entries| - 1];
      CollectedIffHeld(init, f);
      EntryCollectedIffHeld(e, f);
      assert Holds(init, f) ==> Holds(entries, f);
      assert Holds(entries, f) && !EntryHolds(e, f) ==> Holds(init, f) by {
        if Holds(entries, f) && !EntryHolds(e, f) {
          var i :| 0 <= i < |entries| && EntryHolds(entries[i], f);
          assert init[i] == entries[i];
        }
      }
    }
  }

  lemma {:induction false} EntryCollectedIffHeld(e: Entry, f: PolicyFile)
    ensures f in CollectEntry(e) <==> EntryHolds(e, f)
    decreases e
  {
    if e.node.Dir? {
      var dir, inner := e.name + "/", Collect(e.node.entries);
      if f in CollectEntry(e) {
        var i :| 0 <= i < |inner| && Under(dir, inner)[i] == f;
        assert f.path == dir + inner[i].path;
        assert f.path[|dir|..] == inner[i].path && f.path[..|dir|] == dir;
        CollectedIffHeld(e.node.entries, inner[i]);
        assert inner[i] in inner;
      }
      if EntryHolds(e, f) {
        var g := PolicyFile(f.path[|dir|..], f.content);
        CollectedIffHeld(e.node.entries, g);
        var i :| 0 <= i < |inner| && inner[i] == g;
        assert f.path == dir + g.path;
        assert Under(dir, inner)[i] == f;
      }
    }
  }

  /** Every path that comes from an entry starts with that entry's name, up to a separator. */
  predicate NamedBy(path: string, name: string) {
    |name| <= |path| && path[..|name|] == name && (|path| == |name| || path[|name|] == '/')
  }

  lemma NamesDisjoint(path: string, name: string, name': string)
    requires SlashFree(name) && SlashFree(name') && NamedBy(path, name) && NamedBy(path, name')
    ensures name == name'
  {
    assert forall k :: 0 <= k < |name| ==> path[k] == name[k];
    assert forall k :: 0 <= k < |name'| ==> path[k] == name'[k];
    assert path[..|name|] == name && path[..|name'|] == name';
  }

  lemma CollectedNamed(entries: seq<Entry>, k: nat) returns (i: nat)
    requires k < |Collect(entries)|
    ensures i < |entries| && NamedBy(Collect(entries)[k].path, entries[i].name)
    decreases entries
  {
    var init, e := entries[..|entries| - 1], entries[|entries| - 1];
    if k < |Collect(init)| {
      i := CollectedNamed(init, k);
    } else {
      i := |entries| - 1;
      EntryNamed(e, k - |Collect(init)|);
    }
  }

  lemma EntryNamed(e: Entry, k: nat)
    requires k < |CollectEntry(e)|
    ensures NamedBy(CollectEntry(e)[k].path, e.name)
  {
  }

  lemma {:induction false} CollectedPathsDistinct(entries: seq<Entry>)
    requires WellFormed(entries)
    ensures DistinctPaths(Collect(entries))
    decreases entries
  {
    if entries != [] {
      var init, e := entries[..|entries| - 1], entries[|entries| - 1];
      CollectedPathsDistinct(init);
      if e.node.Dir? {
        CollectedPathsDistinct(e.node.entries);
        UnderDistinct(e.name + "/", Collect(e.node.entries));
      }
      var a, b := Collect(init), CollectEntry(e);
      assert DistinctPaths(b);
      forall i, j | 0 <= i < |a| && 0 <= j < |b|
        ensures a[i].path != b[j].path
      {
        var k := CollectedNamed(init, i);
        EntryNamed(e, j);
        assert entries[k].name != e.name;
        if a[i].path == b[j].path {
          NamesDisjoint(a[i].path, entries[k].name, e.name);
        }
      }
    }
  }

  lemma UnderDistinct(dir: string, files: seq<PolicyFile>)
    requires DistinctPaths(files)
    ensures DistinctPaths(Under(dir, files))
  {
    forall i, j | 0 <= i < j < |files|
      ensures Under(dir, files)[i].path != Under(dir, files)[j].path
    {
      assert (dir + files[i].path)[|dir|..] == files[i].path;
      assert (dir + files[j].path)[|dir|..] == files[j].path;
    }
  }

  ghost predicate SameMembers(a: seq<PolicyFile>, b: seq<PolicyFile>) {
    forall f :: f in a <==> f in b
  }

  /** Every path reads the same in both trees. */
  ghost predicate SameFiles(t: seq<Entry>, t': seq<Entry>) {
    forall f :: Holds(t, f) <==> Holds(t', f)
  }

  /** Lists without repetition and with the same members are permutations of each other. */
  lemma SameMembersSameMultiset(a: seq<PolicyFile>, b: seq<PolicyFile>)
    requires DistinctPaths(a) && DistinctPaths(b)
    requires SameMembers(a, b)
    ensures multiset(a) == multiset(b)
  {
    forall f
      ensures multiset(a)[f] == multiset(b)[f]
    {
      if f in a {
        var i :| 0 <= i < |a| && a[i] == f;
        var j :| 0 <= j < |b| && b[j] == f;
        DistinctOnce(a, i);
        DistinctOnce(b, j);
      }
    }
  }

  /**
   * Two directory trees, enumerated in any order, have the same hash exactly when
   * they hold the same files.
   */
  lemma SameHashIffSameFiles(le: (string, string) -> bool, digest: string -> string, t: seq<Entry>, t': seq<Entry>)
    requires TotalOrder(le) && WellFormed(t) && WellFormed(t')
    requires NulFreeFiles(Collect(t)) && NulFreeFiles(Collect(t'))
    requires forall s, s' :: digest(s) == digest(s') ==> s == s'
    ensures digest(StreamOf(SortByPath(le, Collect(t)))) == digest(StreamOf(SortByPath(le, Collect(t'))))
            <==> SameFiles(t, t')
  {
    var a, b := Collect(t), Collect(t');
    CollectedPathsDistinct(t);
    CollectedPathsDistinct(t');
    HashTellsApart(le, digest, a, b);
    SameMembersIffSameFiles(t, t');
    if multiset(a) == multiset(b) {
      SameMultisetSameMembers(a, b);
    }
    if SameMembers(a, b) {
      SameMembersSameMultiset(a, b);
    }
  }

  lemma SameMultisetSameMembers(a: seq<PolicyFile>, b: seq<PolicyFile>)
    requires multiset(a) == multiset(b)
    ensures SameMembers(a, b)
  {
    forall f
      ensures f in a <==> f in b
    {
      assert f in a <==> f in multiset(a);
      assert f in b <==> f in multiset(b);
    }
  }

  lemma SameMembersIffSameFiles(t: seq<Entry>, t': seq<Entry>)
    ensures SameMembers(Collect(t), Collect(t')) <==> SameFiles(t, t')
  {
    if SameMembers(Collect(t), Collect(t')) {
      forall f
        ensures Holds(t, f) <==> Holds(t', f)
      {
        CollectedIffHeld(t, f);
        CollectedIffHeld(t', f);
      }
    }
    if SameFiles(t, t') {
      forall f
        ensures f in Collect(t) <==> f in Collect(t')
      {
        CollectedIffHeld(t, f);
        CollectedIffHeld(t', f);
      }
    }
  }

  // ----- the mid-session check

  /** Hashes by policy path; an unreadable file has none. */
  type Hashes = map<string, string>

  const CACHE_TTL_MS := 60000

  datatype Verdict = Verdict(ok: bool, changedFiles: set<string>)

  function Changed(baseline: Hashes, current: Hashes): set<string> {
    (set p | p in current && (p !in baseline || baseline[p] != current[p]))
    + (set p | p in baseline && p !in current :: p + " (deleted)")
  }

  class MidSessionIntegrityChecker {
    var baseline: Option<Hashes>
    var lastCheck: Option<Verdict>
    var lastCheckTime: int
    /** What the last check saw on disk. */
    ghost var lastSeen: Hashes

    ghost predicate Valid()
      reads this
    {
      lastCheck.Some? ==> baseline.Some? && lastCheck.value == Exact(baseline.value, lastSeen)
    }

    constructor ()
      ensures Valid() && baseline == None
    {
      baseline, lastCheck, lastCheckTime, lastSeen := None, None, 0, map[];
    }

    method CaptureBaseline(current: Hashes)
      modifies this
      ensures Valid() && baseline == Some(current) && lastCheck == None
    {
      baseline, lastCheck, lastCheckTime := Some(current), None, 0;
    }

    /** `current` are the hashes on disk now; they are looked at only when the cached verdict is too old. */
    method Verify(now: int, current: Hashes) returns (v: Verdict, ghost at: int, ghost seen: Hashes)
      requires Valid()
      modifies this`lastCheck, this`lastCheckTime, this`lastSeen
      ensures Valid() && baseline == old(baseline)
      ensures baseline == None ==> v == Verdict(true, {}) && lastCheck == old(lastCheck)
      ensures baseline.Some? ==> v == Exact(baseline.value, seen) && now - at < 60000
      ensures baseline.Some? ==>
                if old(lastCheck).Some? && now - old(lastCheckTime) < 60000
                then at == old(lastCheckTime) && seen == old(lastSeen)
                else at == now && seen == current
      ensures baseline.Some? ==> lastCheck == Some(v) && lastCheckTime == at && lastSeen == seen
    {
      at, seen := now, current;
      if baseline == None {
        return Verdict(true, {}), now, current;
      }
      if lastCheck.Some? && now - lastCheckTime < CACHE_TTL_MS {
        return lastCheck.value, lastCheckTime, lastSeen;
      }
      var changedFiles := CompareHashes(baseline.value, current);
      v := Verdict(changedFiles == {}, changedFiles);
      lastCheck, lastCheckTime, lastSeen := Some(v), now, current;
      OkIffEqual(baseline.value, current);
    }
  }

  /** The verdict that is right for what is on disk. */
  ghost function Exact(baseline: Hashes, current: Hashes): Verdict {
    Verdict(current == baseline, Changed(baseline, current))
  }

  lemma OkIffEqual(baseline: Hashes, current: Hashes)
    ensures Changed(baseline, current) == {} <==> current == baseline
  {
    forall p | p in baseline && p !in current
      ensures p + " (deleted)" in Changed(baseline, current)
    {
    }
    forall p | p in current && (p !in baseline || baseline[p] != current[p])
      ensures p in Changed(baseline, current)
    {
    }
  }

  /** A path is reported exactly when it is new or its hash differs, unless it reads like a deleted one. */
  lemma ReportedIff(baseline: Hashes, current: Hashes, p: string)
    requires forall q :: q in baseline && q !in current ==> p != q + " (deleted)"
    ensures p in Changed(baseline, current) <==> p in current && !(p in baseline && baseline[p] == current[p])
  {
  }

  /** A path of the baseline is reported as deleted exactly when it is gone, unless there is a file of that name. */
  lemma ReportedDeletedIff(baseline: Hashes, current: Hashes, p: string)
    requires p in baseline && p + " (deleted)" !in current
    ensures p + " (deleted)" in Changed(baseline, current) <==> p !in current
  {
    var marked := p + " (deleted)";
    if marked in Changed(baseline, current) {
      var q :| q in baseline && q !in current && q + " (deleted)" == marked;
      assert q == (q + " (deleted)")[..|q|] && p == marked[..|p|];
    }
  }

  /** The two loops of the comparison: changed or new files, then deleted ones. */
  method CompareHashes(baseline: Hashes, current: Hashes) returns (changedFiles: set<string>)
    ensures changedFiles == Changed(baseline, current)
  {
    changedFiles := {};
    var paths := current.Keys;
    while paths != {}
      invariant paths <= current.Keys
      invariant changedFiles == set p | p in current && p !in paths && (p !in baseline || baseline[p] != current[p])
      decreases paths
    {
      var p :| p in paths;
      if p !in baseline || baseline[p] != current[p] {
        changedFiles := changedFiles + {p};
      }
      paths := paths - {p};
    }
    ghost var modified := changedFiles;
    paths := baseline.Keys;
    while paths != {}
      invariant paths <= baseline.Keys
      invariant changedFiles == modified + set p | p in baseline && p !in paths && p !in current :: p + " (deleted)"
      decreases paths
    {
      var p :| p in paths;
      if p !in current {
        changedFiles := changedFiles + {p + " (deleted)"};
      }
      paths := paths - {p};
    }
  }

  // ----- whole sessions

  datatype Event = Capture(current: Hashes) | Verification(now: int, current: Hashes)

  datatype Session = Session(baseline: Option<Hashes>, checked: Option<Verdict>, checkedAt: int)

  function AfterEvent(s: Session, e: Event): Session {
    match e
    case Capture(current) => Session(Some(current), None, 0)
    case Verification(now, current) =>
      if s.baseline == None || (s.checked.Some? && now - s.checkedAt < CACHE_TTL_MS) then s
      else
        var changed := Changed(s.baseline.value, current);
        Session(s.baseline, Some(Verdict(changed == {}, changed)), now)
  }

  function AfterEvents(events: seq<Event>): Session {
    if events == [] then Session(None, None, 0)
      else AfterEvent(AfterEvents(events[..|events| - 1]), events[|events| - 1])
  }

  /** Verification `i` shows that the cached verdict was right at its time, for the baseline still in force. */
  ghost predicate Witness(events: seq<Event>, i: nat) {
    var s := AfterEvents(events);
    && i < |events| && events[i].Verification? && s.baseline.Some? && s.checked.Some?
    && s.checked.value == Exact(s.baseline.value, events[i].current) && s.checkedAt == events[i].now
    && forall k :: i < k < |events| ==> !events[k].Capture?
  }

  lemma {:induction false} CachedWasExact(events: seq<Event>) returns (i: nat)
    requires AfterEvents(events).checked.Some?
    ensures Witness(events, i)
  {
    var init, e := events[..|events| - 1], events[|events| - 1];
    var before := AfterEvents(init);
    if e.Verification? && before.checked.Some? && (before.baseline == None || e.now - before.checkedAt < CACHE_TTL_MS) {
      i := CachedWasExact(init);
    } else {
      i := |events| - 1;
      OkIffEqual(before.baseline.value, e.current);
    }
  }

  /**
   * In any session, the verdict that a verification returns, once there is a
   * baseline, was exact for the disk as some verification under the same baseline
   * saw it, less than the cache lifetime earlier.
   */
  lemma VerdictsFresh(events: seq<Event>, now: int, current: Hashes) returns (i: nat)
    requires AfterEvents(events).baseline.Some?
    ensures var all := events + [Verification(now, current)];
            Witness(all, i) && now - all[i].now < 60000
  {
    var all := events + [Verification(now, current)];
    assert all[..|events|] == events;
    i := CachedWasExact(all);
  }
}
