/**
 * Collecting the source files of a workspace: a depth-first walk over a directory
 * graph that may be cyclic or shared.
 */
module ProjectMap {
  import opened Prelude

  /** A directory entry; a subdirectory leads to a canonical directory, and several may lead to the same one. */
  datatype Entry = Directory(name: string, target: string) | File(name: string) | Other(name: string)

  /** The readable directories by canonical path; reading any other one fails. */
  type FileSystem = map<string, seq<Entry>>

  datatype Options = Options(skipDirs: set<string>, extensions: set<string>, extname: string -> string)

  /** A collected file: the entry at a position of a canonical directory. */
  datatype Found = Found(dir: string, index: nat)

  predicate Visible(name: string) {
    !(name != "" && name[0] == '.' && name != ".goli")
  }

  predicate Descends(e: Entry, o: Options) {
    e.Directory? && Visible(e.name) && e.name !in o.skipDirs
  }

  predicate Wanted(e: Entry, o: Options) {
    e.File? && Visible(e.name) && o.extname(e.name) in o.extensions
  }

  // ----- reachability, independently of the walk

  ghost predicate Edge(fs: FileSystem, o: Options, d: string, e: string) {
    d in fs && e in fs && exists i :: 0 <= i < |fs[d]| && Descends(fs[d][i], o) && fs[d][i].target == e
  }

  ghost predicate Path(fs: FileSystem, o: Options, p: seq<string>) {
    p != [] && p[0] in fs && forall i :: 0 <= i < |p| - 1 ==> Edge(fs, o, p[i], p[i + 1])
  }

  ghost predicate Reachable(fs: FileSystem, o: Options, a: string, b: string) {
    exists p :: Path(fs, o, p) && p[0] == a && p[|p| - 1] == b
  }

  lemma ReachableSelf(fs: FileSystem, o: Options, a: string)
    requires a in fs
    ensures Reachable(fs, o, a, a)
  {
    assert Path(fs, o, [a]);
  }

  lemma ReachableStep(fs: FileSystem, o: Options, a: string, b: string, c: string)
    requires Edge(fs, o, a, b) && Reachable(fs, o, b, c)
    ensures Reachable(fs, o, a, c)
  {
    var p :| Path(fs, o, p) && p[0] == b && p[|p| - 1] == c;
    var q := [a] + p;
    forall i | 0 <= i < |q| - 1
      ensures Edge(fs, o, q[i], q[i + 1])
    {
      if i > 0 {
        assert q[i] == p[i - 1] && q[i + 1] == p[i];
      }
    }
    assert Path(fs, o, q);
  }

  /** A set closed under edges holds every directory on a path that starts in it. */
  lemma {:induction false} ClosedHoldsPath(fs: FileSystem, o: Options, closed: set<string>, p: seq<string>, n: nat)
    requires Path(fs, o, p) && p[0] in closed && n < |p|
    requires forall d, e :: d in closed && Edge(fs, o, d, e) ==> e in closed
    ensures p[n] in closed
  {
    if n > 0 {
      ClosedHoldsPath(fs, o, closed, p, n - 1);
      assert Edge(fs, o, p[n - 1], p[n]);
    }
  }

  // ----- the walk

  /** The wanted files of a directory among its first `n` entries. */
  ghost predicate IsWanted(fs: FileSystem, o: Options, f: Found, n: nat) {
    f.dir in fs && f.index < |fs[f.dir]| && f.index < n && Wanted(fs[f.dir][f.index], o)
  }

  ghost predicate NoRepeats(found: seq<Found>) {
    forall i, j :: 0 <= i < j < |found| ==> found[i] != found[j]
  }

  /** `found` lists, once each, exactly the wanted files of the directories in `dirs`. */
  ghost predicate Collects(fs: FileSystem, o: Options, dirs: set<string>, found: seq<Found>) {
    && NoRepeats(found)
    && forall f :: f in found <==> f.dir in dirs && f.dir in fs && IsWanted(fs, o, f, |fs[f.dir]|)
  }

  ghost predicate ClosedInto(fs: FileSystem, o: Options, dirs: set<string>, visited: set<string>) {
    forall d, e :: d in dirs && Edge(fs, o, d, e) ==> e in visited
  }

  ghost predicate AllReachable(fs: FileSystem, o: Options, root: string, dirs: set<string>) {
    forall d :: d in dirs ==> Reachable(fs, o, root, d)
  }

  /** What a walk from `dir` adds to the visited set `before` and to the files. */
  ghost predicate Walked(fs: FileSystem, o: Options, dir: string, before: set<string>, after: set<string>,
                         news: seq<Found>) {
    && before <= after && (dir in fs ==> dir in after)
    && AllReachable(fs, o, dir, after - before)
    && ClosedInto(fs, o, after - before, after)
    && Collects(fs, o, after - before, news)
  }

  /** The same while `dir` itself has been handled only up to entry `n`. */
  ghost predicate WalkedUpTo(fs: FileSystem, o: Options, dir: string, before: set<string>, after: set<string>,
                             news: seq<Found>, n: nat) {
    && dir in fs && n <= |fs[dir]| && dir !in before && before + {dir} <= after
    && AllReachable(fs, o, dir, after - before)
    && ClosedInto(fs, o, after - before - {dir}, after)
    && (forall k :: 0 <= k < n && Descends(fs[dir][k], o) && fs[dir][k].target in fs ==> fs[dir][k].target in after)
    && CollectsUpTo(fs, o, dir, after - before - {dir}, news, n)
  }

  ghost predicate CollectsUpTo(fs: FileSystem, o: Options, dir: string, dirs: set<string>, found: seq<Found>, n: nat) {
    && NoRepeats(found)
    && forall f :: f in found <==>
         || (f.dir in dirs && f.dir in fs && IsWanted(fs, o, f, |fs[f.dir]|))
         || (f.dir == dir && IsWanted(fs, o, f, n))
  }

  lemma WalkStarts(fs: FileSystem, o: Options, dir: string, before: set<string>)
    requires dir in fs && dir !in before
    ensures WalkedUpTo(fs, o, dir, before, before + {dir}, [], 0)
  {
    ReachableSelf(fs, o, dir);
  }

  lemma WalkEnds(fs: FileSystem, o: Options, dir: string, before: set<string>, after: set<string>, news: seq<Found>)
    requires dir in fs && WalkedUpTo(fs, o, dir, before, after, news, |fs[dir]|)
    ensures Walked(fs, o, dir, before, after, news)
  {
    forall d, e | d in after - before && Edge(fs, o, d, e)
      ensures e in after
    {
      if d == dir {
        var i :| 0 <= i < |fs[dir]| && Descends(fs[dir][i], o) && fs[dir][i].target == e;
      }
    }
  }

  lemma SkipStep(fs: FileSystem, o: Options, dir: string, before: set<string>, after: set<string>, news: seq<Found>,
                 n: nat)
    requires WalkedUpTo(fs, o, dir, before, after, news, n) && n < |fs[dir]|
    requires !Descends(fs[dir][n], o) && !Wanted(fs[dir][n], o)
    ensures WalkedUpTo(fs, o, dir, before, after, news, n + 1)
  {
  }

  lemma FileStep(fs: FileSystem, o: Options, dir: string, before: set<string>, after: set<string>, news: seq<Found>,
                 n: nat)
    requires WalkedUpTo(fs, o, dir, before, after, news, n) && n < |fs[dir]| && Wanted(fs[dir][n], o)
    ensures WalkedUpTo(fs, o, dir, before, after, news + [Found(dir, n)], n + 1)
  {
    var all := news + [Found(dir, n)];
    assert Found(dir, n) !in news;
    assert CollectsUpTo(fs, o, dir, after - before - {dir}, all, n + 1) by {
      forall f
        ensures f in all <==> f in news || f == Found(dir, n)
      {
        assert all[|news|] == Found(dir, n);
      }
    }
  }

  lemma DescendStep(fs: FileSystem, o: Options, dir: string, before: set<string>, after: set<string>,
                    after': set<string>,
                    news: seq<Found>, more: seq<Found>, n: nat)
    requires WalkedUpTo(fs, o, dir, before, after, news, n) && n < |fs[dir]| && Descends(fs[dir][n], o)
    requires Walked(fs, o, fs[dir][n].target, after, after', more)
    ensures WalkedUpTo(fs, o, dir, before, after', news + more, n + 1)
  {
    var sub := fs[dir][n].target;
    forall d | d in after' - after
      ensures Reachable(fs, o, dir, d)
    {
      var p :| Path(fs, o, p) && p[0] == sub && p[|p| - 1] == d;
      assert Edge(fs, o, dir, sub);
      ReachableStep(fs, o, dir, sub, d);
    }
    JoinCollections(fs, o, dir, after - before - {dir}, after' - after, news, more, n);
    assert after' - before - {dir} == (after - before - {dir}) + (after' - after);
  }

  lemma JoinCollections(fs: FileSystem, o: Options, dir: string, a: set<string>, b: set<string>, news: seq<Found>,
                        more: seq<Found>, n: nat)
    requires CollectsUpTo(fs, o, dir, a, news, n) && Collects(fs, o, b, more) && a !! b && dir !in b
    requires dir in fs && n < |fs[dir]| && !Wanted(fs[dir][n], o)
    ensures CollectsUpTo(fs, o, dir, a + b, news + more, n + 1)
  {
    var all := news + more;
    forall f
      ensures f in all <==> f in news || f in more
    {
    }
    forall i, j | 0 <= i < j < |all|
      ensures all[i] != all[j]
    {
      if i < |news| <= j {
        assert all[i] in news && all[j] in more;
      }
    }
  }

  class ProjectMapGenerator {
    const fs: FileSystem
    const options: Options
    var walkVisited: set<string>

    constructor (fs: FileSystem, options: Options)
      ensures this.fs == fs && this.options == options
    {
      this.fs, this.options := fs, options;
      walkVisited := {};
    }

    method Walk(dir: string, files: seq<Found>) returns (files': seq<Found>, ghost news: seq<Found>)
      modifies this`walkVisited
      ensures files' == files + news
      ensures Walked(fs, options, dir, old(walkVisited), walkVisited, news)
      decreases fs.Keys - walkVisited
    {
      files', news := files, [];
      if dir !in fs {
        return;
      }
      if dir in walkVisited {
        return;
      }
      ghost var before := walkVisited;
      walkVisited := walkVisited + {dir};
      WalkStarts(fs, options, dir, before);
      var entries := fs[dir];
      for i := 0 to |entries|
        invariant files' == files + news
        invariant WalkedUpTo(fs, options, dir, before, walkVisited, news, i)
      {
        var entry := entries[i];
        if !Visible(entry.name) {
          SkipStep(fs, options, dir, before, walkVisited, news, i);
        } else if entry.Directory? && entry.name !in options.skipDirs {
          ghost var visited, more := walkVisited, [];
          files', more := Walk(entry.target, files');
          DescendStep(fs, options, dir, before, visited, walkVisited, news, more, i);
          news := news + more;
        } else if entry.File? && options.extname(entry.name) in options.extensions {
          FileStep(fs, options, dir, before, walkVisited, news, i);
          files' := files' + [Found(dir, i)];
          news := news + [Found(dir, i)];
        } else {
          SkipStep(fs, options, dir, before, walkVisited, news, i);
        }
      }
      WalkEnds(fs, options, dir, before, walkVisited, news);
    }

    /** On any directory graph: every wanted file of every reachable directory, each once, and nothing else. */
    method CollectFiles(root: string) returns (files: seq<Found>)
      modifies this`walkVisited
      ensures NoRepeats(files)
      ensures forall f :: f in files <==>
                Reachable(fs, options, root, f.dir) && f.dir in fs && IsWanted(fs, options, f, |fs[f.dir]|)
      ensures forall f :: f in files ==>
                && f.dir in fs && f.index < |fs[f.dir]|
                && var e := fs[f.dir][f.index];
                   && e.File? && options.extname(e.name) in options.extensions
                   && (e.name != "" && e.name[0] == '.' ==> e.name == ".goli")
    {
      walkVisited := {};
      ghost var news;
      files, news := Walk(root, []);
      VisitedIffReachable(fs, options, root, walkVisited, news);
      assert walkVisited - {} == walkVisited;
      assert files == news;
    }
  }

  /** A walk that starts with nothing visited visits exactly the reachable directories. */
  lemma VisitedIffReachable(fs: FileSystem, o: Options, root: string, visited: set<string>, news: seq<Found>)
    requires Walked(fs, o, root, {}, visited, news)
    ensures forall d :: d in visited <==> Reachable(fs, o, root, d)
  {
    assert visited - {} == visited;
    forall d | Reachable(fs, o, root, d)
      ensures d in visited
    {
      var p :| Path(fs, o, p) && p[0] == root && p[|p| - 1] == d;
      ClosedHoldsPath(fs, o, visited, p, |p| - 1);
    }
  }
}
