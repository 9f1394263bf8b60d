/** Input collection and archive-tree expansion: `expand_archives_in_tree`
    (tracktagger.py:117-154) and the line scan of `resolve_trackinfo_inputs`
    (tracktagger.py:156-171). */
module Archives {
  import opened Wrappers
  import opened Text
  import opened Fs
  import opened Lines

  /** `ARCHIVE_EXTS`. */
  const ArchiveExtensions: seq<string> := [".zip", ".rar", ".7z"]

  /** The test at tracktagger.py:136: a regular file whose suffix, lower-cased,
      is one of the archive extensions. */
  predicate IsArchive(fs: FileSystem, stub: Path) {
    fs.isFile(stub) && Lower(Suffix(Name(stub))) in ArchiveExtensions
  }

  /** What stands for an extracted archive: the sole entry of the extraction
      directory when that entry is a directory, else the directory itself. */
  function ExtractedRoot(fs: FileSystem, stub: Path): (r: Path)
    ensures var e := fs.extract(stub);
      r == (if |e.entries| == 1 && fs.isDir(e.entries[0]) then e.entries[0] else e.container)
  {
    var e := fs.extract(stub);
    if |e.entries| == 1 && fs.isDir(e.entries[0]) then e.entries[0] else e.container
  }

  /** The stubs `expand_archives_in_tree` extracts. */
  ghost function ArchiveStubs(fs: FileSystem): iset<Path> {
    iset stub | IsArchive(fs, stub)
  }

  /** Where a path part really lives, given the set of archive stubs: an
      archive is replaced by its extracted root. */
  function Real(fs: FileSystem, archives: iset<Path>, stub: Path): Path {
    if stub in archives then ExtractedRoot(fs, stub) else stub
  }

  /** Where the relative path `p`, read part by part below `parent`, really
      lives once every archive on the way is replaced by its extracted root. */
  function Locate(fs: FileSystem, archives: iset<Path>, parent: Path, p: Path): Path
    decreases |p|
  {
    if p == [] then parent else Locate(fs, archives, Real(fs, archives, Child(parent, p[0])), p[1..])
  }

  /** The archive prefixes met while locating `p`, each named by its logical
      path: `logical` followed by the prefix of `p` that ends at the archive. */
  function ArchivePrefixes(fs: FileSystem, archives: iset<Path>, parent: Path, logical: Path, p: Path): set<Path>
    decreases |p|
  {
    if p == [] then {}
    else
      var stub := Child(parent, p[0]);
      (if stub in archives then {logical + [p[0]]} else {}) +
      ArchivePrefixes(fs, archives, Real(fs, archives, stub), logical + [p[0]], p[1..])
  }

  /** Every archive prefix extends `logical` by a non-empty prefix of `p`. */
  lemma {:induction false} ArchivePrefixShape(fs: FileSystem, archives: iset<Path>, parent: Path, logical: Path, p: Path, q: Path)
    requires q in ArchivePrefixes(fs, archives, parent, logical, p)
    ensures |logical| < |q| <= |logical| + |p|
    ensures q == logical + p[..|q| - |logical|]
    decreases |p|
  {
    var stub := Child(parent, p[0]);
    var next := logical + [p[0]];
    if stub in archives && q == next {
      PrefixStep(logical, p, q);
    } else {
      ArchivePrefixShape(fs, archives, Real(fs, archives, stub), next, p[1..], q);
      PrefixStep(logical, p, q);
    }
  }

  lemma PrefixStep(logical: Path, p: Path, q: Path)
    requires p != [] && |logical| < |q| <= |logical| + |p|
    requires q == (logical + [p[0]]) + p[1..][..|q| - |logical| - 1]
    ensures q == logical + p[..|q| - |logical|]
  {
    var m := |q| - |logical| - 1;
    assert [p[0]] + p[1..][..m] == p[..m + 1];
  }

  /** A path read part by part below `parent` with nothing replaced: what
      `parent / p` names. */
  function JoinParts(parent: Path, p: Path): Path
    decreases |p|
  {
    if p == [] then parent else JoinParts(Child(parent, p[0]), p[1..])
  }

  /** An absolute path, joined onto the empty path part by part, is itself. */
  lemma JoinAbsolute(p: Path)
    requires |p| >= 1 && p[0] == "/"
    requires forall i :: 1 <= i < |p| ==> p[i] != "/"
    ensures JoinParts([], p) == p
  {
    JoinBelow(["/"], p[1..]);
  }

  /** Parts other than the root are appended one by one. */
  lemma {:induction false} JoinBelow(parent: Path, p: Path)
    requires forall i :: 0 <= i < |p| ==> p[i] != "/"
    ensures JoinParts(parent, p) == parent + p
    decreases |p|
  {
    if p != [] {
      JoinBelow(parent + [p[0]], p[1..]);
      assert (parent + [p[0]]) + p[1..] == parent + p;
    }
  }

  /** Locating a path is locating its tail from where its head was located. */
  lemma {:induction false} LocateAppend(fs: FileSystem, archives: iset<Path>, parent: Path, a: Path, b: Path)
    ensures Locate(fs, archives, parent, a + b) == Locate(fs, archives, Locate(fs, archives, parent, a), b)
    decreases |a|
  {
    if a != [] {
      assert (a + b)[0] == a[0] && (a + b)[1..] == a[1..] + b;
      LocateAppend(fs, archives, Real(fs, archives, Child(parent, a[0])), a[1..], b);
    } else {
      assert a + b == b;
    }
  }

  /** A path none of whose prefixes is an archive is located where it is
      named: nothing is replaced. */
  lemma {:induction false} LocateWithoutArchives(fs: FileSystem, archives: iset<Path>, parent: Path, logical: Path, p: Path)
    requires ArchivePrefixes(fs, archives, parent, logical, p) == {}
    ensures Locate(fs, archives, parent, p) == JoinParts(parent, p)
    decreases |p|
  {
    if p != [] {
      var stub := Child(parent, p[0]);
      assert stub !in archives && ArchivePrefixes(fs, archives, stub, logical + [p[0]], p[1..]) == {};
      LocateWithoutArchives(fs, archives, stub, logical + [p[0]], p[1..]);
    }
  }

  /** The first archive on a path is replaced by its extracted root: the
      extraction directory, or its sole entry when that entry is a directory.
      The rest of the path is read from there. */
  lemma LocateAtFirstArchive(fs: FileSystem, archives: iset<Path>, parent: Path, logical: Path,
                             a: Path, head: string, b: Path)
    requires ArchivePrefixes(fs, archives, parent, logical, a) == {}
    requires Child(JoinParts(parent, a), head) in archives
    ensures Locate(fs, archives, parent, a + [head] + b) ==
      Locate(fs, archives, ExtractedRoot(fs, Child(JoinParts(parent, a), head)), b)
  {
    LocateAppend(fs, archives, parent, a, [head] + b);
    LocateWithoutArchives(fs, archives, parent, logical, a);
    assert a + [head] + b == a + ([head] + b);
    assert ([head] + b)[0] == head && ([head] + b)[1..] == b;
  }

  /** One entry of `new_nodes`: the stub, where it really lives, and the
      remaining parts of the paths below it. */
  datatype Node = Node(stub: Path, location: Path, tails: set<Path>)

  ghost predicate NoDuplicates<T>(s: seq<T>) {
    forall i, j :: 0 <= i < j < |s| ==> s[i] != s[j]
  }

  /** The first loop of `expand_archives_in_tree`: the paths grouped by their
      first part, each group holding the remaining parts. */
  method GroupByHead(paths: set<Path>) returns (nodes: map<string, set<Path>>)
    requires forall p {:trigger p in paths} :: p in paths ==> |p| >= 1
    ensures forall p {:trigger p in paths} :: p in paths ==> p[0] in nodes && p[1..] in nodes[p[0]]
    ensures forall h, t {:trigger t in nodes[h]} :: h in nodes && t in nodes[h] ==> [h] + t in paths
    ensures forall h :: h in nodes ==> nodes[h] != {}
  {
    nodes := map[];
    var rest := paths;
    while rest != {}
      invariant rest <= paths
      invariant forall p {:trigger p in paths} :: p in paths && p !in rest ==> p[0] in nodes && p[1..] in nodes[p[0]]
      invariant forall h, t {:trigger t in nodes[h]} :: h in nodes && t in nodes[h] ==> [h] + t in paths
      invariant forall h :: h in nodes ==> nodes[h] != {}
      decreases |rest|
    {
      var p :| p in rest;
      var group := if p[0] in nodes then nodes[p[0]] else {};
      assert [p[0]] + p[1..] == p;
      nodes := nodes[p[0] := group + {p[1..]}];
      rest := rest - {p};
    }
  }

  /** The names among `names` whose stub below `parent` is an archive. */
  ghost function ArchiveNames(archives: iset<Path>, parent: Path, names: set<string>): set<string> {
    set h | h in names && Child(parent, h) in archives
  }

  /** The logical paths of the heads in `archives`, in order. */
  function LevelLog(archives: set<string>, logical: Path, heads: seq<string>): seq<Path>
  {
    if heads == [] then []
    else
      var h := heads[|heads| - 1];
      LevelLog(archives, logical, heads[..|heads| - 1]) + (if h in archives then [logical + [h]] else [])
  }

  /** Every entry of the level log is the logical path of an archive head. */
  lemma {:induction false} LevelLogSound(archives: set<string>, logical: Path, heads: seq<string>, q: Path)
    requires q in LevelLog(archives, logical, heads)
    ensures exists i :: 0 <= i < |heads| && q == logical + [heads[i]] && heads[i] in archives
  {
    var init := heads[..|heads| - 1];
    var h := heads[|heads| - 1];
    if q in LevelLog(archives, logical, init) {
      LevelLogSound(archives, logical, init, q);
      var i :| 0 <= i < |init| && q == logical + [init[i]] && init[i] in archives;
      assert heads[i] == init[i];
    } else {
      assert heads[|heads| - 1] == h;
    }
  }

  /** Every archive head is named in the level log. */
  lemma {:induction false} LevelLogComplete(archives: set<string>, logical: Path, heads: seq<string>, i: nat)
    requires i < |heads| && heads[i] in archives
    ensures logical + [heads[i]] in LevelLog(archives, logical, heads)
  {
    var init := heads[..|heads| - 1];
    if i < |init| {
      assert init[i] == heads[i];
      LevelLogComplete(archives, logical, init, i);
    }
  }

  /** Level log entries are one part longer than `logical`, and distinct heads
      give distinct entries. */
  lemma {:induction false} LevelLogDistinct(archives: set<string>, logical: Path, heads: seq<string>)
    requires NoDuplicates(heads)
    ensures forall k :: 0 <= k < |LevelLog(archives, logical, heads)| ==>
      |LevelLog(archives, logical, heads)[k]| == |logical| + 1
    ensures NoDuplicates(LevelLog(archives, logical, heads))
  {
    if heads != [] {
      var init := heads[..|heads| - 1];
      var h := heads[|heads| - 1];
      LevelLogDistinct(archives, logical, init);
      var log0 := LevelLog(archives, logical, init);
      forall k | 0 <= k < |log0|
        ensures log0[k] != logical + [h]
      {
        LevelLogSound(archives, logical, init, log0[k]);
        var i :| 0 <= i < |init| && log0[k] == logical + [init[i]] && init[i] in archives;
        assert init[i] == heads[i];
        assert log0[k][|logical|] == init[i] && (logical + [h])[|logical|] == h;
      }
    }
  }

  /** `newNodes` holds one node per head, in order, with the real location of
      each stub, and `extracted` logs the archives among them. */
  ghost predicate StubsFiled(fs: FileSystem, archives: iset<Path>, parent: Path, logical: Path, nodes: map<string, set<Path>>,
                             heads: seq<string>, newNodes: seq<Node>, extracted: seq<Path>)
  {
    |heads| == |newNodes| && NoDuplicates(heads) &&
    (forall i :: 0 <= i < |heads| ==> heads[i] in nodes) &&
    (forall i {:trigger newNodes[i]} :: 0 <= i < |heads| ==>
      newNodes[i] == Node(Child(parent, heads[i]), Real(fs, archives, Child(parent, heads[i])), nodes[heads[i]])) &&
    extracted == LevelLog(ArchiveNames(archives, parent, nodes.Keys), logical, heads)
  }

  /** The second loop of `expand_archives_in_tree`: one node per head, with
      every archive stub extracted (logged by its logical path) and replaced by
      its extracted root. */
  method ExtractStubs(fs: FileSystem, parent: Path, nodes: map<string, set<Path>>, ghost logical: Path)
    returns (newNodes: seq<Node>, ghost heads: seq<string>, ghost extracted: seq<Path>)
    ensures forall h :: h in nodes <==> h in heads
    ensures StubsFiled(fs, ArchiveStubs(fs), parent, logical, nodes, heads, newNodes, extracted)
  {
    newNodes := [];
    heads := [];
    extracted := [];
    var todo := nodes.Keys;
    while todo != {}
      invariant todo <= nodes.Keys
      invariant forall h :: h in nodes && h !in todo <==> h in heads
      invariant StubsFiled(fs, ArchiveStubs(fs), parent, logical, nodes, heads, newNodes, extracted)
      decreases |todo|
    {
      var head :| head in todo;
      var stub := Child(parent, head);
      var node: Node;
      ghost var before := extracted;
      if IsArchive(fs, stub) {
        var extraction := fs.extract(stub);
        var archivePath := extraction.container;
        var archiveFiles := extraction.entries;
        if |archiveFiles| == 1 && fs.isDir(archiveFiles[0]) {
          node := Node(stub, archiveFiles[0], nodes[head]);
        } else {
          node := Node(stub, archivePath, nodes[head]);
        }
        extracted := extracted + [logical + [head]];
      } else {
        node := Node(stub, stub, nodes[head]);
      }
      StubStep(fs, ArchiveStubs(fs), parent, logical, nodes, heads, newNodes, before, head, node, extracted);
      newNodes := newNodes + [node];
      heads := heads + [head];
      todo := todo - {head};
    }
  }

  /** One iteration of the second loop keeps `StubsFiled`. */
  lemma StubStep(fs: FileSystem, archives: iset<Path>, parent: Path, logical: Path, nodes: map<string, set<Path>>,
                 heads: seq<string>, newNodes: seq<Node>, extracted: seq<Path>,
                 head: string, node: Node, extracted': seq<Path>)
    requires StubsFiled(fs, archives, parent, logical, nodes, heads, newNodes, extracted)
    requires head in nodes && head !in heads
    requires node == Node(Child(parent, head), Real(fs, archives, Child(parent, head)), nodes[head])
    requires extracted' == extracted + (if Child(parent, head) in archives then [logical + [head]] else [])
    ensures StubsFiled(fs, archives, parent, logical, nodes, heads + [head], newNodes + [node], extracted')
  {
    assert (heads + [head])[..|heads|] == heads;
  }

  /** The inner loop of the third loop: every entry of the sub-tree map is
      filed under `name`. */
  method MergeBelow(ret: map<Path, Path>, name: string, sub: map<Path, Path>) returns (merged: map<Path, Path>)
    ensures forall p {:trigger p in merged} :: p in merged <==> p in ret || (|p| >= 1 && p[0] == name && p[1..] in sub)
    ensures forall p {:trigger merged[p]} :: p in merged ==>
      merged[p] == if |p| >= 1 && p[0] == name && p[1..] in sub then sub[p[1..]] else ret[p]
  {
    merged := ret;
    var keys := sub.Keys;
    while keys != {}
      invariant keys <= sub.Keys
      invariant forall p {:trigger p in merged} ::
        p in merged <==> p in ret || (|p| >= 1 && p[0] == name && p[1..] in sub.Keys - keys)
      invariant forall p {:trigger merged[p]} :: p in merged ==>
        merged[p] == if |p| >= 1 && p[0] == name && p[1..] in sub.Keys - keys then sub[p[1..]] else ret[p]
      decreases |keys|
    {
      var base :| base in keys;
      assert ([name] + base)[0] == name && ([name] + base)[1..] == base;
      forall p: Path {:trigger p in merged} | |p| >= 1 && p[0] == name && p[1..] == base
        ensures p == [name] + base
      {
        assert p == [p[0]] + p[1..];
      }
      merged := merged[[name] + base := sub[base]];
      keys := keys - {base};
    }
  }

  /** `origins[k]` is an input path of which `log[k]` is an archive prefix. */
  ghost predicate SoundLog(fs: FileSystem, archives: iset<Path>, parent: Path, logical: Path, paths: set<Path>, log: seq<Path>, origins: seq<Path>) {
    |origins| == |log| &&
    forall k :: 0 <= k < |log| ==> origins[k] in paths && log[k] in ArchivePrefixes(fs, archives, parent, logical, origins[k])
  }

  /** Every archive prefix of every input path is in `log`. */
  ghost predicate CompleteLog(fs: FileSystem, archives: iset<Path>, parent: Path, logical: Path, paths: set<Path>, log: seq<Path>) {
    forall p, q {:trigger q in ArchivePrefixes(fs, archives, parent, logical, p)} ::
      p in paths && q in ArchivePrefixes(fs, archives, parent, logical, p) ==> q in log
  }

  /** The keys of `ret` are the input paths whose first part is in `done`, and
      each is sent to its real location. */
  ghost predicate Filed(fs: FileSystem, archives: iset<Path>, parent: Path, paths: set<Path>, done: set<string>, ret: map<Path, Path>) {
    (forall p {:trigger p in ret} {:trigger p in paths} :: p in ret <==> p in paths && |p| >= 1 && p[0] in done) &&
    (forall p {:trigger ret[p]} :: p in ret ==> ret[p] == Locate(fs, archives, parent, p))
  }

  /** Every archive prefix met below a head in `done` is in `log`. */
  ghost predicate LoggedBelow(fs: FileSystem, archives: iset<Path>, parent: Path, logical: Path, paths: set<Path>, done: set<string>, log: seq<Path>) {
    forall p, q {:trigger q in ArchivePrefixes(fs, archives, Real(fs, archives, Child(parent, p[0])), logical + [p[0]], p[1..])} ::
      (p in paths && |p| >= 1 && p[0] in done &&
       q in ArchivePrefixes(fs, archives, Real(fs, archives, Child(parent, p[0])), logical + [p[0]], p[1..])) ==> q in log
  }

  /** Every entry of `log` is at least two parts longer than `logical`, below a
      head in `done`. */
  ghost predicate Below(logical: Path, done: set<string>, log: seq<Path>) {
    forall k :: 0 <= k < |log| ==> |log[k]| > |logical| + 1 && log[k][|logical|] in done
  }

  /** The body of the third loop of `expand_archives_in_tree` for one node:
      the stub itself and, through the recursive call, every path below it are
      filed into `ret`. */
  method FileNode(fs: FileSystem, ret: map<Path, Path>, paths: set<Path>, parent: Path, ghost done: set<string>,
                  ghost head: string, node: Node, ghost logical: Path, ghost height: nat)
    returns (ret': map<Path, Path>, ghost log: seq<Path>, ghost origins: seq<Path>)
    requires forall p {:trigger p in paths} :: p in paths ==> 1 <= |p| <= height
    requires node.stub == Child(parent, head) && node.location == Real(fs, ArchiveStubs(fs), node.stub)
    requires forall t :: t in node.tails <==> [head] + t in paths
    requires head !in done && Filed(fs, ArchiveStubs(fs), parent, paths, done, ret)
    ensures Filed(fs, ArchiveStubs(fs), parent, paths, done + {head}, ret')
    ensures NoDuplicates(log) && Below(logical, {head}, log)
    ensures SoundLog(fs, ArchiveStubs(fs), parent, logical, paths, log, origins)
    ensures LoggedBelow(fs, ArchiveStubs(fs), parent, logical, paths, {head}, log)
    decreases height, 1
  {
    var name := node.stub[|node.stub| - 1];
    assert name == head;
    var ret1, tails := FileStub(ret, name, node.location, node.tails);
    var sub: map<Path, Path> := map[];
    ret' := ret1;
    log, origins := [], [];
    if |tails| > 0 {
      sub, log, origins := ExpandBelow(fs, paths, parent, name, node.location, tails, logical, height);
      ret' := MergeBelow(ret1, name, sub);
    } else {
      LeafLogged(fs, ArchiveStubs(fs), parent, logical, paths, head, node.tails);
    }
    FiledStep(fs, ArchiveStubs(fs), parent, paths, done, head, node.location, node.tails, ret, ret1, ret', sub);
  }

  /** The recursive call of the loop body: the paths below a stub are
      expanded inside the directory its archive was extracted to. */
  method ExpandBelow(fs: FileSystem, paths: set<Path>, parent: Path, name: string, location: Path,
                     tails: set<Path>, ghost logical: Path, ghost height: nat)
    returns (sub: map<Path, Path>, ghost log: seq<Path>, ghost origins: seq<Path>)
    requires forall p {:trigger p in paths} :: p in paths ==> 1 <= |p| <= height
    requires location == Real(fs, ArchiveStubs(fs), Child(parent, name))
    requires tails != {} && forall b :: b in tails <==> b != [] && [name] + b in paths
    ensures sub.Keys == tails && forall b :: b in sub ==> sub[b] == Locate(fs, ArchiveStubs(fs), location, b)
    ensures NoDuplicates(log) && Below(logical, {name}, log)
    ensures SoundLog(fs, ArchiveStubs(fs), parent, logical, paths, log, origins)
    ensures LoggedBelow(fs, ArchiveStubs(fs), parent, logical, paths, {name}, log)
    decreases height, 0
  {
    TailsShorter(paths, name, tails, height);
    ghost var subOrigins;
    sub, log, subOrigins := ExpandArchivesInTree(fs, tails, location, logical + [name], height - 1);
    origins := SubLogFacts(fs, ArchiveStubs(fs), parent, logical, name, location, tails, paths, log, subOrigins);
  }

  /** The first half of the loop body: an input path that is the stub itself
      is filed, and the empty tail removed. */
  method FileStub(ret: map<Path, Path>, name: string, location: Path, tails: set<Path>)
    returns (ret1: map<Path, Path>, rest: set<Path>)
    ensures rest == tails - {[]}
    ensures forall p {:trigger p in ret1} :: p in ret1 <==> p in ret || (p == [name] && [] in tails)
    ensures forall p {:trigger ret1[p]} :: p in ret1 ==> ret1[p] == (if p == [name] && [] in tails then location else ret[p])
  {
    ret1, rest := ret, tails;
    if [] in rest {
      ret1 := ret1[[name] := location];
      rest := rest - {[]};
    }
  }

  /** The tails below a head, once the empty one is removed, are shorter than
      the paths they come from. */
  lemma TailsShorter(paths: set<Path>, head: string, tails: set<Path>, height: nat)
    requires forall p {:trigger p in paths} :: p in paths ==> 1 <= |p| <= height
    requires tails != {} && [] !in tails
    requires forall t :: t in tails ==> [head] + t in paths
    ensures height >= 1 && forall b {:trigger b in tails} :: b in tails ==> 1 <= |b| <= height - 1
  {
    var t :| t in tails;
    assert [head] + t in paths;
    forall b {:trigger b in tails} | b in tails ensures 1 <= |b| <= height - 1 {
      assert [head] + b in paths;
    }
  }

  /** A head whose only tail is empty has no archive below it. */
  lemma LeafLogged(fs: FileSystem, archives: iset<Path>, parent: Path, logical: Path, paths: set<Path>, head: string, tails: set<Path>)
    requires forall t :: t in tails <==> [head] + t in paths
    requires tails <= {[]}
    ensures LoggedBelow(fs, archives, parent, logical, paths, {head}, [])
  {
    forall p {:trigger p in paths} | p in paths && |p| >= 1 && p[0] == head
      ensures p[1..] == []
    {
      assert p == [head] + p[1..];
    }
  }

  /** Filing one node: `ret'` adds to `ret` the stub, if it is an input path
      itself, and every sub-tree entry below it. */
  lemma FiledStep(fs: FileSystem, archives: iset<Path>, parent: Path, paths: set<Path>, done: set<string>, head: string,
                  location: Path, tails: set<Path>, ret: map<Path, Path>, ret1: map<Path, Path>,
                  ret': map<Path, Path>, sub: map<Path, Path>)
    requires location == Real(fs, archives, Child(parent, head))
    requires forall t :: t in tails <==> [head] + t in paths
    requires head !in done && Filed(fs, archives, parent, paths, done, ret)
    requires forall p {:trigger p in ret1} :: p in ret1 <==> p in ret || (p == [head] && [] in tails)
    requires forall p {:trigger ret1[p]} :: p in ret1 ==> ret1[p] == (if p == [head] && [] in tails then location else ret[p])
    requires sub.Keys == tails - {[]}
    requires forall b :: b in sub ==> sub[b] == Locate(fs, archives, location, b)
    requires forall p {:trigger p in ret'} :: p in ret' <==> p in ret1 || (|p| >= 1 && p[0] == head && p[1..] in sub)
    requires forall p {:trigger ret'[p]} :: p in ret' ==>
      ret'[p] == (if |p| >= 1 && p[0] == head && p[1..] in sub then sub[p[1..]] else ret1[p])
    ensures Filed(fs, archives, parent, paths, done + {head}, ret')
  {
    forall p {:trigger p in paths} | p in paths && |p| >= 1 && p[0] in done + {head}
      ensures p in ret'
    {
      if p[0] == head {
        assert p == [head] + p[1..];
      }
    }
    forall p {:trigger p in ret'} | p in ret'
      ensures p in paths && |p| >= 1 && p[0] in done + {head}
    {
      if p !in ret {
        assert |p| >= 1;
        FiledNew(fs, archives, parent, paths, head, location, tails, ret1, ret', sub, p);
      }
    }
    forall p {:trigger ret'[p]} | p in ret'
      ensures ret'[p] == Locate(fs, archives, parent, p)
    {
      if p !in ret {
        assert |p| >= 1;
        FiledNew(fs, archives, parent, paths, head, location, tails, ret1, ret', sub, p);
      }
    }
  }

  /** An entry that filing one node adds lies below the node's head. */
  lemma FiledNew(fs: FileSystem, archives: iset<Path>, parent: Path, paths: set<Path>, head: string,
                 location: Path, tails: set<Path>, ret1: map<Path, Path>,
                 ret': map<Path, Path>, sub: map<Path, Path>, p: Path)
    requires location == Real(fs, archives, Child(parent, head))
    requires forall t :: t in tails <==> [head] + t in paths
    requires |p| >= 1 && p in ret'
    requires p in ret1 <==> p == [head] && [] in tails
    requires p in ret1 ==> ret1[p] == location
    requires sub.Keys == tails - {[]}
    requires p[1..] in sub ==> sub[p[1..]] == Locate(fs, archives, location, p[1..])
    requires p in ret' <==> p in ret1 || (|p| >= 1 && p[0] == head && p[1..] in sub)
    requires ret'[p] == (if |p| >= 1 && p[0] == head && p[1..] in sub then sub[p[1..]] else ret1[p])
    ensures p in paths && p[0] == head && ret'[p] == Locate(fs, archives, parent, p)
  {
    LocateStep(fs, archives, parent, p);
    if p == [head] {
      assert p[1..] == [] && [head] + [] == p;
    } else {
      assert p[0] == head && p[1..] in sub;
      assert p == [head] + p[1..];
    }
  }

  /** Locating a path is locating its tail below the real location of its head. */
  lemma LocateStep(fs: FileSystem, archives: iset<Path>, parent: Path, p: Path)
    requires |p| >= 1
    ensures Locate(fs, archives, parent, p) == Locate(fs, archives, Real(fs, archives, Child(parent, p[0])), p[1..])
  {
  }

  /** `expand_archives_in_tree(paths, tmp_dir, parent)`.  The map it returns has
      exactly the given paths as keys and sends each one to its real location.
      The ghost log names, by logical path, the archives it extracts: each
      archive prefix of an input path exactly once. */
  method ExpandArchivesInTree(fs: FileSystem, paths: set<Path>, parent: Path, ghost logical: Path, ghost height: nat)
    returns (ret: map<Path, Path>, ghost extracted: seq<Path>, ghost origins: seq<Path>)
    requires forall p {:trigger p in paths} :: p in paths ==> 1 <= |p| <= height
    ensures ret.Keys == paths
    ensures forall p {:trigger ret[p]} :: p in paths ==> ret[p] == Locate(fs, ArchiveStubs(fs), parent, p)
    ensures NoDuplicates(extracted)
    ensures SoundLog(fs, ArchiveStubs(fs), parent, logical, paths, extracted, origins)
    ensures CompleteLog(fs, ArchiveStubs(fs), parent, logical, paths, extracted)
    decreases height, 3
  {
    var nodes := GroupByHead(paths);
    var newNodes, heads, levelLog := ExtractStubs(fs, parent, nodes, logical);
    ret, extracted, origins := FileNodes(fs, paths, parent, nodes, newNodes, heads, levelLog, logical, height);
  }

  /** The third loop of `expand_archives_in_tree`: every node is filed in turn,
      recursing into the tails below it. */
  method FileNodes(fs: FileSystem, paths: set<Path>, parent: Path, ghost nodes: map<string, set<Path>>,
                   newNodes: seq<Node>, ghost heads: seq<string>, ghost levelLog: seq<Path>,
                   ghost logical: Path, ghost height: nat)
    returns (ret: map<Path, Path>, ghost extracted: seq<Path>, ghost origins: seq<Path>)
    requires forall p {:trigger p in paths} :: p in paths ==> 1 <= |p| <= height
    requires forall p {:trigger p in paths} :: p in paths ==> p[0] in nodes && p[1..] in nodes[p[0]]
    requires forall h, t {:trigger t in nodes[h]} :: h in nodes && t in nodes[h] ==> [h] + t in paths
    requires forall h :: h in nodes ==> nodes[h] != {}
    requires forall h :: h in nodes <==> h in heads
    requires StubsFiled(fs, ArchiveStubs(fs), parent, logical, nodes, heads, newNodes, levelLog)
    ensures ret.Keys == paths
    ensures forall p {:trigger ret[p]} :: p in paths ==> ret[p] == Locate(fs, ArchiveStubs(fs), parent, p)
    ensures NoDuplicates(extracted)
    ensures SoundLog(fs, ArchiveStubs(fs), parent, logical, paths, extracted, origins)
    ensures CompleteLog(fs, ArchiveStubs(fs), parent, logical, paths, extracted)
    decreases height, 2
  {
    LevelLogDistinct(ArchiveNames(ArchiveStubs(fs), parent, nodes.Keys), logical, heads);
    origins := LevelOrigins(fs, ArchiveStubs(fs), paths, parent, logical, nodes, heads);
    extracted := levelLog;
    ghost var done: set<string> := {};
    ret := map[];
    var i := 0;
    while i < |newNodes|
      invariant i <= |newNodes|
      invariant Progress(fs, ArchiveStubs(fs), parent, logical, paths, heads, levelLog, i, done, ret, extracted, origins)
    {
      ghost var head := heads[i];
      TailsOf(paths, nodes, head);
      var ret';
      ghost var log, logOrigins;
      ret', log, logOrigins := FileNode(fs, ret, paths, parent, done, head, newNodes[i], logical, height);
      ProgressStep(fs, ArchiveStubs(fs), parent, logical, paths, heads, levelLog, i, done, ret, extracted, origins, ret', log, logOrigins);
      ret, extracted, origins := ret', extracted + log, origins + logOrigins;
      done := done + {head};
      i := i + 1;
    }
    LoopDone(fs, ArchiveStubs(fs), parent, logical, paths, nodes, heads, levelLog, done, ret, extracted, origins);
  }

  /** The invariant of the third loop after `i` nodes: their heads are `done`,
      their paths are filed, and the log holds the level's archives followed by
      those extracted below the heads in `done`. */
  ghost predicate Progress(fs: FileSystem, archives: iset<Path>, parent: Path, logical: Path, paths: set<Path>, heads: seq<string>,
                           levelLog: seq<Path>, i: nat, done: set<string>, ret: map<Path, Path>,
                           extracted: seq<Path>, origins: seq<Path>)
  {
    i <= |heads| &&
    (forall j :: 0 <= j < i ==> heads[j] in done) &&
    (forall j :: i <= j < |heads| ==> heads[j] !in done) &&
    Filed(fs, archives, parent, paths, done, ret) &&
    |levelLog| <= |extracted| && extracted[..|levelLog|] == levelLog &&
    Below(logical, done, extracted[|levelLog|..]) &&
    NoDuplicates(extracted) &&
    SoundLog(fs, archives, parent, logical, paths, extracted, origins) &&
    LoggedBelow(fs, archives, parent, logical, paths, done, extracted)
  }

  /** One iteration of the third loop keeps `Progress`. */
  lemma ProgressStep(fs: FileSystem, archives: iset<Path>, parent: Path, logical: Path, paths: set<Path>, heads: seq<string>,
                     levelLog: seq<Path>, i: nat, done: set<string>, ret: map<Path, Path>,
                     extracted: seq<Path>, origins: seq<Path>,
                     ret': map<Path, Path>, log: seq<Path>, logOrigins: seq<Path>)
    requires Progress(fs, archives, parent, logical, paths, heads, levelLog, i, done, ret, extracted, origins)
    requires i < |heads| && NoDuplicates(heads)
    requires forall k :: 0 <= k < |levelLog| ==> |levelLog[k]| == |logical| + 1
    requires Filed(fs, archives, parent, paths, done + {heads[i]}, ret')
    requires NoDuplicates(log) && Below(logical, {heads[i]}, log)
    requires SoundLog(fs, archives, parent, logical, paths, log, logOrigins)
    requires LoggedBelow(fs, archives, parent, logical, paths, {heads[i]}, log)
    ensures Progress(fs, archives, parent, logical, paths, heads, levelLog, i + 1, done + {heads[i]}, ret',
                     extracted + log, origins + logOrigins)
  {
    AppendLog(fs, archives, parent, logical, paths, levelLog, extracted, origins, log, logOrigins, done, heads[i]);
    DoneStep(heads, i, done);
  }

  /** The group of a head holds exactly the tails of the paths below it. */
  lemma TailsOf(paths: set<Path>, nodes: map<string, set<Path>>, head: string)
    requires forall p {:trigger p in paths} :: p in paths ==> |p| >= 1 && p[0] in nodes && p[1..] in nodes[p[0]]
    requires forall h, t {:trigger t in nodes[h]} :: h in nodes && t in nodes[h] ==> [h] + t in paths
    requires head in nodes
    ensures forall t :: t in nodes[head] <==> [head] + t in paths
  {
    forall t ensures t in nodes[head] <==> [head] + t in paths {
      assert ([head] + t)[0] == head && ([head] + t)[1..] == t;
    }
  }

  /** The heads visited so far are exactly the first `i`. */
  lemma DoneStep(heads: seq<string>, i: nat, done: set<string>)
    requires i < |heads| && NoDuplicates(heads)
    requires forall j :: 0 <= j < i ==> heads[j] in done
    requires forall j :: i <= j < |heads| ==> heads[j] !in done
    ensures forall j :: 0 <= j < i + 1 ==> heads[j] in done + {heads[i]}
    ensures forall j :: i + 1 <= j < |heads| ==> heads[j] !in done + {heads[i]}
  {
  }

  /** Appending one node's log keeps the loop's log invariants. */
  lemma AppendLog(fs: FileSystem, archives: iset<Path>, parent: Path, logical: Path, paths: set<Path>, levelLog: seq<Path>,
                  before: seq<Path>, originsBefore: seq<Path>, log: seq<Path>, logOrigins: seq<Path>,
                  done: set<string>, head: string)
    requires forall k :: 0 <= k < |levelLog| ==> |levelLog[k]| == |logical| + 1
    requires |levelLog| <= |before| && before[..|levelLog|] == levelLog
    requires Below(logical, done, before[|levelLog|..]) && head !in done
    requires NoDuplicates(before) && NoDuplicates(log) && Below(logical, {head}, log)
    requires SoundLog(fs, archives, parent, logical, paths, before, originsBefore)
    requires SoundLog(fs, archives, parent, logical, paths, log, logOrigins)
    requires LoggedBelow(fs, archives, parent, logical, paths, done, before)
    requires LoggedBelow(fs, archives, parent, logical, paths, {head}, log)
    ensures (before + log)[..|levelLog|] == levelLog
    ensures Below(logical, done + {head}, (before + log)[|levelLog|..])
    ensures NoDuplicates(before + log)
    ensures SoundLog(fs, archives, parent, logical, paths, before + log, originsBefore + logOrigins)
    ensures LoggedBelow(fs, archives, parent, logical, paths, done + {head}, before + log)
  {
    AppendDistinct(logical, levelLog, before, log, done, head);
    AppendSound(fs, archives, parent, logical, paths, before, originsBefore, log, logOrigins);
  }

  /** The node's log is new: its entries lie below a head not seen before. */
  lemma AppendDistinct(logical: Path, levelLog: seq<Path>, before: seq<Path>, log: seq<Path>,
                       done: set<string>, head: string)
    requires forall k :: 0 <= k < |levelLog| ==> |levelLog[k]| == |logical| + 1
    requires |levelLog| <= |before| && before[..|levelLog|] == levelLog
    requires Below(logical, done, before[|levelLog|..]) && head !in done
    requires NoDuplicates(before) && NoDuplicates(log) && Below(logical, {head}, log)
    ensures (before + log)[..|levelLog|] == levelLog
    ensures Below(logical, done + {head}, (before + log)[|levelLog|..])
    ensures NoDuplicates(before + log)
  {
    var after := before + log;
    assert after[..|before|] == before;
    forall k, k' | 0 <= k < |before| && 0 <= k' < |log|
      ensures before[k] != log[k']
    {
      if k < |levelLog| {
        assert before[k] == levelLog[k];
      } else {
        assert before[k] == before[|levelLog|..][k - |levelLog|];
      }
    }
    NoDuplicatesAppend(before, log);
    forall k | 0 <= k < |after[|levelLog|..]|
      ensures |after[|levelLog|..][k]| > |logical| + 1 && after[|levelLog|..][k][|logical|] in done + {head}
    {
      var m := |levelLog| + k;
      if m < |before| {
        assert after[m] == before[|levelLog|..][k];
      } else {
        assert after[m] == log[m - |before|];
      }
    }
  }

  /** Concatenated logs keep their witnesses. */
  lemma AppendSound(fs: FileSystem, archives: iset<Path>, parent: Path, logical: Path, paths: set<Path>,
                    before: seq<Path>, originsBefore: seq<Path>, log: seq<Path>, logOrigins: seq<Path>)
    requires SoundLog(fs, archives, parent, logical, paths, before, originsBefore)
    requires SoundLog(fs, archives, parent, logical, paths, log, logOrigins)
    ensures SoundLog(fs, archives, parent, logical, paths, before + log, originsBefore + logOrigins)
  {
    var after := before + log;
    forall k | 0 <= k < |after|
      ensures (originsBefore + logOrigins)[k] in paths &&
        after[k] in ArchivePrefixes(fs, archives, parent, logical, (originsBefore + logOrigins)[k])
    {
      if k >= |before| {
        assert after[k] == log[k - |before|];
      }
    }
  }

  /** After the third loop every head is done, so every path is filed and the
      log is complete. */
  lemma LoopDone(fs: FileSystem, archives: iset<Path>, parent: Path, logical: Path, paths: set<Path>, nodes: map<string, set<Path>>,
                 heads: seq<string>, levelLog: seq<Path>, done: set<string>, ret: map<Path, Path>,
                 extracted: seq<Path>, origins: seq<Path>)
    requires forall p {:trigger p in paths} :: p in paths ==> |p| >= 1 && p[0] in nodes
    requires forall h :: h in nodes <==> h in heads
    requires levelLog == LevelLog(ArchiveNames(archives, parent, nodes.Keys), logical, heads)
    requires Progress(fs, archives, parent, logical, paths, heads, levelLog, |heads|, done, ret, extracted, origins)
    ensures ret.Keys == paths
    ensures forall p {:trigger ret[p]} :: p in paths ==> ret[p] == Locate(fs, archives, parent, p)
    ensures NoDuplicates(extracted)
    ensures SoundLog(fs, archives, parent, logical, paths, extracted, origins)
    ensures CompleteLog(fs, archives, parent, logical, paths, extracted)
  {
    forall p {:trigger p in paths} | p in paths ensures p in ret {
      assert p[0] in heads;
    }
    Finish(fs, archives, parent, logical, paths, nodes, heads, done, extracted);
  }

  /** After the loop: the level log and the sub-tree logs together hold every
      archive prefix. */
  lemma Finish(fs: FileSystem, archives: iset<Path>, parent: Path, logical: Path, paths: set<Path>, nodes: map<string, set<Path>>,
               heads: seq<string>, done: set<string>, extracted: seq<Path>)
    requires forall p {:trigger p in paths} :: p in paths ==> |p| >= 1 && p[0] in nodes
    requires forall h :: h in nodes <==> h in heads
    requires forall j :: 0 <= j < |heads| ==> heads[j] in done
    requires |LevelLog(ArchiveNames(archives, parent, nodes.Keys), logical, heads)| <= |extracted|
    requires extracted[..|LevelLog(ArchiveNames(archives, parent, nodes.Keys), logical, heads)|] == LevelLog(ArchiveNames(archives, parent, nodes.Keys), logical, heads)
    requires LoggedBelow(fs, archives, parent, logical, paths, done, extracted)
    ensures CompleteLog(fs, archives, parent, logical, paths, extracted)
  {
    var levelLog := LevelLog(ArchiveNames(archives, parent, nodes.Keys), logical, heads);
    forall p, q | p in paths && q in ArchivePrefixes(fs, archives, parent, logical, p)
      ensures q in extracted
    {
      assert p[0] in heads;
      var j :| 0 <= j < |heads| && heads[j] == p[0];
      if q !in ArchivePrefixes(fs, archives, Real(fs, archives, Child(parent, p[0])), logical + [p[0]], p[1..]) {
        LevelLogComplete(ArchiveNames(archives, parent, nodes.Keys), logical, heads, j);
        assert q in extracted[..|levelLog|];
      }
    }
  }

  lemma NoDuplicatesAppend<T>(a: seq<T>, b: seq<T>)
    requires NoDuplicates(a) && NoDuplicates(b)
    requires forall k, k' :: 0 <= k < |a| && 0 <= k' < |b| ==> a[k] != b[k']
    ensures NoDuplicates(a + b)
  {
  }

  /** A sub-tree's log, read one level up: every entry lies below `name`, is an
      archive prefix of one of the paths, and every archive prefix below `name`
      is in it. */
  lemma SubLogFacts(fs: FileSystem, archives: iset<Path>, parent: Path, logical: Path, name: string, location: Path,
                    tails: set<Path>, paths: set<Path>, subLog: seq<Path>, subOrigins: seq<Path>)
    returns (origins: seq<Path>)
    requires location == Real(fs, archives, Child(parent, name))
    requires forall b :: b in tails <==> b != [] && [name] + b in paths
    requires SoundLog(fs, archives, location, logical + [name], tails, subLog, subOrigins)
    requires CompleteLog(fs, archives, location, logical + [name], tails, subLog)
    ensures Below(logical, {name}, subLog)
    ensures SoundLog(fs, archives, parent, logical, paths, subLog, origins)
    ensures LoggedBelow(fs, archives, parent, logical, paths, {name}, subLog)
  {
    origins := seq(|subOrigins|, k requires 0 <= k < |subOrigins| => [name] + subOrigins[k]);
    forall k | 0 <= k < |subLog|
      ensures |subLog[k]| > |logical| + 1 && subLog[k][|logical|] == name
      ensures origins[k] in paths && subLog[k] in ArchivePrefixes(fs, archives, parent, logical, origins[k])
    {
      var b := subOrigins[k];
      ArchivePrefixShape(fs, archives, location, logical + [name], b, subLog[k]);
      assert subLog[k][|logical|] == (logical + [name])[|logical|];
      assert origins[k] == [name] + b;
      assert ([name] + b)[0] == name && ([name] + b)[1..] == b;
    }
    forall p, q {:trigger q in ArchivePrefixes(fs, archives, location, logical + [name], p[1..])} | p in paths && |p| >= 1 && p[0] == name &&
      q in ArchivePrefixes(fs, archives, location, logical + [name], p[1..])
      ensures q in subLog
    {
      assert p == [name] + p[1..];
    }
  }

  /** Witnesses for the log of this level: each archive head is the first part
      of some input path. */
  lemma {:induction false} LevelOrigins(fs: FileSystem, archives: iset<Path>, paths: set<Path>, parent: Path, logical: Path,
                                        nodes: map<string, set<Path>>, heads: seq<string>)
    returns (origins: seq<Path>)
    requires forall h, t {:trigger t in nodes[h]} :: h in nodes && t in nodes[h] ==> [h] + t in paths
    requires forall h :: h in nodes ==> nodes[h] != {}
    requires forall i :: 0 <= i < |heads| ==> heads[i] in nodes
    ensures SoundLog(fs, archives, parent, logical, paths, LevelLog(ArchiveNames(archives, parent, nodes.Keys), logical, heads), origins)
  {
    if heads == [] {
      origins := [];
    } else {
      var init := heads[..|heads| - 1];
      var h := heads[|heads| - 1];
      var archiveHeads := ArchiveNames(archives, parent, nodes.Keys);
      origins := LevelOrigins(fs, archives, paths, parent, logical, nodes, init);
      assert heads[..|heads| - 1] == init;
      if h in archiveHeads {
        var t :| t in nodes[h];
        var p := [h] + t;
        assert SoundLog(fs, archives, parent, logical, paths, [logical + [h]], [p]) by {
          assert p in paths;
          HeadIsArchivePrefix(fs, archives, parent, logical, h, t);
        }
        AppendSound(fs, archives, parent, logical, paths, LevelLog(archiveHeads, logical, init), origins, [logical + [h]], [p]);
        origins := origins + [p];
      }
    }
  }

  /** An archive head is the first archive prefix of every path below it. */
  lemma HeadIsArchivePrefix(fs: FileSystem, archives: iset<Path>, parent: Path, logical: Path, h: string, t: Path)
    requires Child(parent, h) in archives
    ensures logical + [h] in ArchivePrefixes(fs, archives, parent, logical, [h] + t)
  {
    assert ([h] + t)[0] == h && ([h] + t)[1..] == t;
  }

  // ---------------------------------------------------------------- resolve_trackinfo_inputs

  /** The input path one manifest line names, if it is an `INPUT` line: the
      unstripped value resolved against the manifest's directory (an absolute
      value stands for itself). */
  function LineInput(fs: FileSystem, manifest: Path, line: string): Option<Path> {
    match MatchInput(RStrip(line))
    case None => None
    case Some(v) => Some(Resolve(fs, Parent(manifest), v))
  }

  /** The paths named by a sequence of per-line answers. */
  function Collect(named: seq<Option<Path>>): set<Path> {
    if named == [] then {}
    else
      Collect(named[..|named| - 1]) +
      (if named[|named| - 1].Some? then {named[|named| - 1].value} else {})
  }

  lemma {:induction false} CollectNamed(named: seq<Option<Path>>, p: Path)
    ensures p in Collect(named) <==> exists i :: 0 <= i < |named| && named[i] == Some(p)
  {
    if named != [] {
      var init := named[..|named| - 1];
      CollectNamed(init, p);
      if p in Collect(init) {
        var i :| 0 <= i < |init| && init[i] == Some(p);
        assert named[i] == init[i];
      } else if named[|named| - 1] != Some(p) {
        forall i | 0 <= i < |named|
          ensures named[i] != Some(p)
        {
          if i < |init| {
            assert init[i] == named[i];
          }
        }
      }
    }
  }

  /** The answer of `LineInput` for each line. */
  function LineInputs(fs: FileSystem, manifest: Path, lines: seq<string>): (r: seq<Option<Path>>)
    ensures |r| == |lines|
    ensures forall i :: 0 <= i < |lines| ==> r[i] == LineInput(fs, manifest, lines[i])
  {
    seq(|lines|, i requires 0 <= i < |lines| => LineInput(fs, manifest, lines[i]))
  }

  /** The set of input paths the lines of a manifest name. */
  function InputPaths(fs: FileSystem, manifest: Path, lines: seq<string>): (r: set<Path>)
    ensures forall p :: p in r ==> |p| >= 1 && p[0] == "/"
  {
    var named := LineInputs(fs, manifest, lines);
    forall p | p in Collect(named) ensures |p| >= 1 && p[0] == "/" {
      CollectNamed(named, p);
    }
    Collect(named)
  }

  /** The inputs are exactly the paths the `INPUT` lines name. */
  lemma InputPathsNamed(fs: FileSystem, manifest: Path, lines: seq<string>, p: Path)
    ensures p in InputPaths(fs, manifest, lines) <==>
      exists i :: 0 <= i < |lines| && LineInput(fs, manifest, lines[i]) == Some(p)
  {
    CollectNamed(LineInputs(fs, manifest, lines), p);
  }

  /** One more line adds what it names, if anything. */
  lemma InputPathsStep(fs: FileSystem, manifest: Path, lines: seq<string>, i: nat)
    requires i < |lines|
    ensures InputPaths(fs, manifest, lines[..i + 1]) ==
      InputPaths(fs, manifest, lines[..i]) +
      (match LineInput(fs, manifest, lines[i]) case None => {} case Some(p) => {p})
  {
    var named := LineInputs(fs, manifest, lines[..i + 1]);
    assert named[..i] == LineInputs(fs, manifest, lines[..i]);
  }

  /** The collecting loop of `resolve_trackinfo_inputs`: the resolved value of
      every line the input regex matches, with a bound on the paths' lengths. */
  method CollectInputs(fs: FileSystem, manifest: Path, lines: seq<string>)
    returns (inputs: set<Path>, ghost height: nat)
    ensures inputs == InputPaths(fs, manifest, lines)
    ensures forall p {:trigger p in inputs} :: p in inputs ==> 1 <= |p| <= height
  {
    inputs := {};
    var i := 0;
    while i < |lines|
      invariant i <= |lines|
      invariant inputs == InputPaths(fs, manifest, lines[..i])
    {
      InputPathsStep(fs, manifest, lines, i);
      var m := MatchInput(RStrip(lines[i]));
      if m.Some? {
        var p := Resolve(fs, Parent(manifest), m.value);
        assert LineInput(fs, manifest, lines[i]) == Some(p);
        inputs := inputs + {p};
      } else {
        assert LineInput(fs, manifest, lines[i]) == None;
      }
      i := i + 1;
    }
    assert lines[..|lines|] == lines;
    height := MaxLength(inputs);
  }

  /** A bound on the lengths of finitely many paths, which the recursion of
      `expand_archives_in_tree` descends along. */
  ghost function MaxLength(paths: set<Path>): (h: nat)
    ensures forall p :: p in paths ==> |p| <= h
  {
    if paths == {} then 0
    else
      var p :| p in paths;
      var h := MaxLength(paths - {p});
      assert forall q :: q in paths ==> q == p || q in paths - {p};
      if |p| > h then |p| else h
  }

  /** `resolve_trackinfo_inputs`: collect the resolved `INPUT` paths of the
      manifest's lines and expand the archives among them.  Every input is a
      key of the result, sent to its real location, and every archive on the
      way is extracted exactly once. */
  method ResolveTrackinfoInputs(fs: FileSystem, manifest: Path, lines: seq<string>)
    returns (inputMap: map<Path, Path>, ghost extracted: seq<Path>, ghost origins: seq<Path>)
    ensures inputMap.Keys == InputPaths(fs, manifest, lines)
    ensures forall p {:trigger inputMap[p]} :: p in inputMap ==> inputMap[p] == Locate(fs, ArchiveStubs(fs), [], p)
    ensures NoDuplicates(extracted)
    ensures SoundLog(fs, ArchiveStubs(fs), [], [], inputMap.Keys, extracted, origins)
    ensures CompleteLog(fs, ArchiveStubs(fs), [], [], inputMap.Keys, extracted)
  {
    var inputs, height := CollectInputs(fs, manifest, lines);
    inputMap, extracted, origins := ExpandArchivesInTree(fs, inputs, [], [], height);
  }
}
