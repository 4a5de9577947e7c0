/** Chunked comparison of streams and one-way synchronisation of directory trees: helpers/cmp.go and
    `RSyncWithDelete` of helpers/helpers.go. */
module TreeSync {

  // ---------------------------------------------------------------- streams

  datatype ReadError = Nil | EOF | UnexpectedEOF | Failed

  /** A stream of known bytes whose first `limit` bytes can be read; beyond them, reading fails, unless
      the stream ends there. */
  class Reader {
    const data: string
    const limit: nat
    var pos: nat

    constructor (bytes: string, readable: nat)
      requires readable <= |bytes|
      ensures data == bytes && limit == readable && pos == 0
    {
      data, limit, pos := bytes, readable, 0;
    }

    ghost predicate Valid()
      reads this
    {
      pos <= limit <= |data|
    }

    /** `io.ReadAtLeast` with a buffer of exactly the minimum size. */
    method ReadAtLeast(size: nat) returns (chunk: string, err: ReadError)
      requires Valid()
      modifies this
      ensures Valid() && pos == if old(pos) + size <= limit then old(pos) + size else limit
      ensures chunk == data[old(pos)..pos]
      ensures err == if old(pos) + size <= limit then Nil
                     else if limit < |data| then Failed
                     else if old(pos) == |data| then EOF else UnexpectedEOF
    {
      var start := pos;
      pos := if start + size <= limit then start + size else limit;
      chunk := data[start..pos];
      err := if start + size <= limit then Nil
             else if limit < |data| then Failed
             else if start == |data| then EOF else UnexpectedEOF;
    }
  }

  /** Terminates for every positive buffer size, and answers yes exactly when both streams can be read to
      their end and hold the same bytes. */
  method StreamsEqual(fa: Reader, fb: Reader, bufsz: nat) returns (equal: bool)
    requires bufsz > 0 && fa != fb
    requires fa.Valid() && fa.pos == 0 && fb.Valid() && fb.pos == 0
    modifies fa, fb
    ensures equal <==> fa.data == fb.data && fa.limit == |fa.data| && fb.limit == |fb.data|
  {
    while true
      invariant fa.Valid() && fb.Valid() && fa.pos == fb.pos
      invariant fa.data[..fa.pos] == fb.data[..fb.pos]
      decreases fa.limit - fa.pos, if fa.pos == |fa.data| then 0 else 1
    {
      ghost var i := fa.pos;
      var bufa, erra := fa.ReadAtLeast(bufsz);
      var bufb, errb := fb.ReadAtLeast(bufsz);
      if erra == EOF && errb == EOF {
        assert fa.data == fa.data[..i] && fb.data == fb.data[..i];
        return true;
      }
      if erra != Nil || errb != Nil {
        var tailMightBeEqual := erra == UnexpectedEOF && errb == UnexpectedEOF;
        if !tailMightBeEqual {
          return false;
        }
      }
      assert fa.data[..fa.pos] == fa.data[..i] + bufa;
      assert fb.data[..fb.pos] == fb.data[..i] + bufb;
      if bufa != bufb {
        assert fa.data[i..fa.pos] != fb.data[i..fb.pos];
        return false;
      }
    }
  }

  /** What opening a file gives; of its bytes, the first `readable` ones can be read. */
  datatype Opened = Refused | Opened(bytes: string, readable: nat)

  predicate IsReadable(f: Opened) { f.Opened? && f.readable >= |f.bytes| }

  /** Yes exactly for two files that can be read to their end and hold the same bytes. */
  method FilesAreEqual(a: Opened, b: Opened, bufsz: nat) returns (equal: bool)
    requires bufsz > 0
    ensures equal <==> IsReadable(a) && IsReadable(b) && a.bytes == b.bytes
  {
    if a.Refused? || b.Refused? { return false; }
    if |a.bytes| != |b.bytes| { return false; }
    var fa := new Reader(a.bytes, if a.readable < |a.bytes| then a.readable else |a.bytes|);
    var fb := new Reader(b.bytes, if b.readable < |b.bytes| then b.readable else |b.bytes|);
    equal := StreamsEqual(fa, fb, bufsz);
  }

  // ---------------------------------------------------------------- trees

  /** A path is the list of its components below the root of the tree. */
  type Path = seq<string>

  datatype Node = Dir | File(content: string)

  type Nodes = map<Path, Node>

  function Parent(p: Path): Path
    requires p != []
  {
    p[..|p| - 1]
  }

  /** The root is a directory, and so is the parent of every other path. */
  ghost predicate IsTree(t: Nodes) {
    && [] in t && t[[]] == Dir
    && forall p {:trigger Parent(p)} :: p in t && p != [] ==> Parent(p) in t && t[Parent(p)] == Dir
  }

  /** An enumeration of a tree, such as the lexical one of `filepath.Walk`. */
  ghost predicate IsWalk(walk: seq<Path>, t: Nodes) { forall p :: p in t <==> p in walk }

  /** What remains after removing a path and everything below it. */
  function Pruned(t: Nodes, path: Path): Nodes { map p | p in t && !(path <= p) :: t[p] }

  /** What remains of the destination after the first walk. */
  function Common(dest: Nodes, src: Nodes): Nodes { map p | p in dest && p in src :: dest[p] }

  /** Some path is a file in the source and a directory in the destination. */
  ghost predicate FileOverDirectory(src: Nodes, dest: Nodes) {
    exists p :: p in src && p in dest && src[p].File? && dest[p] == Dir
  }

  /** Some path is a directory in the source and a file in the destination. */
  ghost predicate DirectoryOverFile(src: Nodes, dest: Nodes) {
    exists p :: p in src && p in dest && src[p] == Dir && dest[p].File?
  }

  lemma {:induction false} AncestorsExist(t: Nodes, q: Path, p: Path)
    requires IsTree(t) && p in t && q <= p
    ensures q in t
    ensures q != p ==> t[q] == Dir
    decreases |p|
  {
    if q != p {
      var up := Parent(p);
      assert q <= up;
      AncestorsExist(t, q, up);
    }
  }

  class Tree {
    var nodes: Nodes
    /** The number of file operations and commands that have failed. */
    ghost var faults: nat

    constructor (contents: Nodes)
      ensures nodes == contents && faults == 0
    {
      nodes, faults := contents, 0;
    }

    method Attempt() returns (ok: bool)
      modifies this`faults
      ensures faults == old(faults) + if ok then 0 else 1
    {
      ok := *;
      if !ok { faults := faults + 1; }
    }

    /** First walk, over the destination: remove whatever the source does not have.  A removed directory
        is not descended into. */
    method RemoveExtra(src: Nodes, walk: seq<Path>) returns (ok: bool)
      requires IsTree(src) && IsTree(nodes) && IsWalk(walk, nodes)
      modifies this
      ensures ok ==> nodes == Common(old(nodes), src)
      ensures KeepsCommon(old(nodes), src, nodes) && IsTree(nodes)
      ensures faults == old(faults) + if ok then 0 else 1
    {
      for k := 0 to |walk|
        invariant KeepsCommon(old(nodes), src, nodes) && IsTree(nodes) && faults == old(faults)
        invariant forall i :: 0 <= i < k && walk[i] in nodes ==> walk[i] in src
      {
        var path := walk[k];
        if path in nodes && path !in src {
          ok := Attempt();
          if !ok { return; }
          PruneKeepsCommon(old(nodes), src, nodes, path);
          PruneKeepsTree(nodes, path);
          nodes := Pruned(nodes, path);
        }
      }
      ok := true;
      forall p | p in nodes ensures p in src {
        var i :| 0 <= i < |walk| && walk[i] == p;
      }
      assert nodes == Common(old(nodes), src);
    }

    /** `cp -va`: onto a directory it copies into that directory under the same name. */
    method Copy(path: Path, content: string) returns (ok: bool)
      requires path != []
      modifies this
      ensures !ok ==> nodes == old(nodes)
      ensures ok && !IsDir(old(nodes), path) ==> nodes == old(nodes)[path := File(content)]
      ensures ok && IsDir(old(nodes), path) ==> nodes == old(nodes)[Inside(path) := File(content)]
      ensures faults >= old(faults) && (ok ==> faults == old(faults))
      ensures faults == old(faults) ==> (ok <==> !(IsDir(old(nodes), path) && IsDir(old(nodes), Inside(path))))
    {
      var target := if IsDir(nodes, path) then Inside(path) else path;
      if IsDir(nodes, target) { return false; }
      ok := Attempt();
      if ok { nodes := nodes[target := File(content)]; }
    }

    /** What the second walk does with one path of the source. */
    method Visit(src: Nodes, path: Path, bufsz: nat) returns (ok: bool)
      requires bufsz > 0 && IsTree(src) && path in src
      modifies this
      ensures nodes == if ok then Visited(old(nodes), src, path) else old(nodes)
      ensures ok && src[path] == Dir && path in old(nodes) ==> old(nodes)[path] == Dir
      ensures faults >= old(faults) && (ok ==> faults == old(faults))
      ensures faults == old(faults) && (src[path].File? ==> !IsDir(old(nodes), Inside(path))) ==>
        (ok <==> !(src[path] == Dir && path in old(nodes) && old(nodes)[path].File?))
    {
      if src[path] == Dir {
        if path in nodes && nodes[path].File? { return false; }
        ok := Attempt();
        if ok { nodes := nodes[path := Dir]; }
      } else {
        if path in nodes && nodes[path].File? {
          var here, there := src[path].content, nodes[path].content;
          var same := FilesAreEqual(Opened(here, |here|), Opened(there, |there|), bufsz);
          if same {
            assert nodes[path := src[path]] == nodes;
            return true;
          }
        }
        ok := Copy(path, src[path].content);
      }
    }

    /** Second walk, over the source: make directories and copy files that differ. */
    method CopyMissing(src: Nodes, walk: seq<Path>, bufsz: nat) returns (ok: bool)
      requires bufsz > 0
      requires IsTree(src) && IsWalk(walk, src)
      requires forall p :: p in nodes ==> p in src
      modifies this
      ensures exists k :: 0 <= k <= |walk| && (ok ==> k == |walk|) && Copied(src, old(nodes), nodes, walk[..k])
      ensures ok ==> (nodes == src <==> !FileOverDirectory(src, old(nodes)))
      ensures faults >= old(faults) && (ok ==> faults == old(faults))
      ensures faults == old(faults) ==> (ok <==> !DirectoryOverFile(src, old(nodes)))
    {
      hide Copied, FileOverDirectory, DirectoryOverFile;
      NothingCopied(src, nodes, walk);
      for k := 0 to |walk|
        invariant Copied(src, old(nodes), nodes, walk[..k]) && faults == old(faults)
        invariant forall i :: 0 <= i < k ==> !IsDirOverFile(src, old(nodes), walk[i])
      {
        ghost var before := nodes;
        NothingNested(src, old(nodes), nodes, walk[..k], walk[k]);
        ok := Visit(src, walk[k], bufsz);
        if !ok {
          OneInTheWay(src, old(nodes), walk[k]);
          return;
        }
        VisitCopies(src, old(nodes), before, walk[..k], walk[k]);
        assert walk[..k + 1] == walk[..k] + [walk[k]];
      }
      ok := true;
      assert walk[..|walk|] == walk;
      FinishedCopy(src, old(nodes), nodes, walk);
      NoneInTheWay(src, old(nodes), walk);
    }

    /** `RSyncWithDelete`: a successful run makes the destination equal to the source if and only if no
        path was a file in the source and a directory in the destination. */
    method RSyncWithDelete(src: Nodes, destWalk: seq<Path>, srcWalk: seq<Path>, bufsz: nat) returns (ok: bool)
      requires bufsz > 0
      requires IsTree(src) && IsTree(nodes) && IsWalk(destWalk, nodes) && IsWalk(srcWalk, src)
      modifies this
      ensures ok ==> (nodes == src <==> !FileOverDirectory(src, old(nodes)))
      ensures ok ==> Copied(src, Common(old(nodes), src), nodes, srcWalk)
      ensures faults >= old(faults) && (ok ==> faults == old(faults))
      ensures faults == old(faults) ==> (ok <==> !DirectoryOverFile(src, old(nodes)))
      ensures KeepsCommon(old(nodes), src, nodes) || CopiedPartly(src, Common(old(nodes), src), nodes, srcWalk)
    {
      ok := RemoveExtra(src, destWalk);
      if !ok { return; }
      ghost var common := nodes;
      assert FileOverDirectory(src, common) <==> FileOverDirectory(src, old(nodes)) by {
        if p :| p in src && p in old(nodes) && src[p].File? && old(nodes)[p] == Dir {
          assert p in common && common[p] == Dir;
        }
      }
      ok := CopyMissing(src, srcWalk, bufsz);
    }
  }

  predicate IsDir(t: Nodes, p: Path) { p in t && t[p] == Dir }

  /** Where a copy onto the directory of this path ends up. */
  function Inside(p: Path): Path
    requires p != []
  {
    p + [p[|p| - 1]]
  }

  predicate IsFileOverDir(src: Nodes, start: Nodes, p: Path) { p in src && src[p].File? && IsDir(start, p) }

  predicate IsDirOverFile(src: Nodes, start: Nodes, p: Path) { IsDir(src, p) && p in start && start[p].File? }

  /** State of one source path during the second walk: untouched before its visit; afterwards a directory
      for a directory, the file for a file, except that a directory in the way of a file stays. */
  ghost predicate Progress(src: Nodes, start: Nodes, now: Nodes, p: Path, visited: bool)
    requires p in src
  {
    if !visited then (p in now <==> p in start) && (p in now ==> now[p] == start[p])
    else p in now && now[p] == if p in start && start[p] == Dir then Dir else src[p]
  }

  function Visited(now: Nodes, src: Nodes, path: Path): Nodes
    requires IsTree(src) && path in src
  {
    if src[path] == Dir then now[path := Dir]
    else if IsDir(now, path) then now[Inside(path) := src[path]]
    else now[path := src[path]]
  }

  /** The paths that were walked are as in the source, except that a file which met a directory was copied into
      it, and nothing else has changed. */
  ghost predicate Copied(src: Nodes, start: Nodes, now: Nodes, done: seq<Path>) {
    && (forall p :: p in src ==> Progress(src, start, now, p, p in done))
    && (forall p :: p in done && p != [] && IsFileOverDir(src, start, p) ==>
          Inside(p) in now && now[Inside(p)] == src[p])
    && (forall p :: p in now && p !in src ==>
          exists q :: q in done && q != [] && IsFileOverDir(src, start, q) && p == Inside(q) && now[p] == src[q])
  }

  ghost predicate CopiedPartly(src: Nodes, start: Nodes, now: Nodes, walk: seq<Path>) {
    exists k :: 0 <= k <= |walk| && Copied(src, start, now, walk[..k])
  }

  lemma NothingCopied(src: Nodes, start: Nodes, walk: seq<Path>)
    requires forall p :: p in start ==> p in src
    ensures Copied(src, start, start, walk[..0])
  {}

  lemma NoneInTheWay(src: Nodes, start: Nodes, walk: seq<Path>)
    requires IsWalk(walk, src) && forall i :: 0 <= i < |walk| ==> !IsDirOverFile(src, start, walk[i])
    ensures !DirectoryOverFile(src, start)
  {
    forall p | p in src && p in start ensures !IsDirOverFile(src, start, p) {
      var i :| 0 <= i < |walk| && walk[i] == p;
    }
  }

  lemma OneInTheWay(src: Nodes, start: Nodes, p: Path)
    ensures IsDirOverFile(src, start, p) ==> DirectoryOverFile(src, start)
  {}

  /** A file of the source has nothing inside. */
  lemma InsideIsNew(src: Nodes, p: Path)
    requires IsTree(src) && p in src && src[p].File?
    ensures p != [] && Inside(p) !in src && Parent(Inside(p)) == p
  {
    assert p != [] ==> Parent(p + [p[|p| - 1]]) == p;
  }

  /** A copy into a directory never meets another directory there. */
  lemma NothingNested(src: Nodes, start: Nodes, now: Nodes, done: seq<Path>, path: Path)
    requires IsTree(src) && path in src && Copied(src, start, now, done)
    ensures src[path].File? ==> path != [] && !IsDir(now, Inside(path))
    ensures src[path] == Dir && path in now && now[path].File? ==> IsDirOverFile(src, start, path)
    ensures path !in done && IsDirOverFile(src, start, path) ==> path in now && now[path].File?
  {
    assert Progress(src, start, now, path, path in done);
    if src[path].File? { InsideIsNew(src, path); }
  }

  lemma VisitCopies(src: Nodes, start: Nodes, now: Nodes, done: seq<Path>, path: Path)
    requires IsTree(src) && path in src && Copied(src, start, now, done)
    requires src[path] == Dir && path in now ==> now[path] == Dir
    ensures Copied(src, start, Visited(now, src, path), done + [path])
  {
    var next := Visited(now, src, path);
    if src[path].File? { InsideIsNew(src, path); }
    assert Progress(src, start, now, path, path in done);
    forall p | p in src ensures Progress(src, start, next, p, p in done + [path]) {
      assert Progress(src, start, now, p, p in done);
    }
    forall p | p in done + [path] && p != [] && IsFileOverDir(src, start, p)
      ensures Inside(p) in next && next[Inside(p)] == src[p]
    {
      InsideIsNew(src, p);
    }
    forall p | p in next && p !in src
      ensures exists q ::
        q in done + [path] && q != [] && IsFileOverDir(src, start, q) && p == Inside(q) && next[p] == src[q]
    {
      if src[path].File? && p == Inside(path) {
        assert path in done + [path];
      } else {
        var q :| q in done && q != [] && IsFileOverDir(src, start, q) && p == Inside(q) && now[p] == src[q];
        assert q in done + [path];
      }
    }
  }

  lemma FinishedCopy(src: Nodes, start: Nodes, now: Nodes, walk: seq<Path>)
    requires IsWalk(walk, src) && Copied(src, start, now, walk)
    ensures now == src <==> !FileOverDirectory(src, start)
  {
    if p :| p in src && p in start && src[p].File? && start[p] == Dir {
      assert Progress(src, start, now, p, true);
    } else {
      forall p | p in src ensures p in now && now[p] == src[p] {
        assert Progress(src, start, now, p, true);
      }
    }
  }

  /** Nothing but extra paths has been removed from the destination. */
  ghost predicate KeepsCommon(start: Nodes, src: Nodes, now: Nodes) {
    && (forall p :: p in now ==> p in start && now[p] == start[p])
    && (forall p :: p in start && p in src ==> p in now)
  }

  lemma PruneKeepsCommon(start: Nodes, src: Nodes, now: Nodes, path: Path)
    requires IsTree(src) && path !in src && KeepsCommon(start, src, now)
    ensures KeepsCommon(start, src, Pruned(now, path))
  {
    forall p | p in start && p in src ensures !(path <= p) {
      if path <= p { AncestorsExist(src, path, p); }
    }
  }

  /** A directory goes with everything below it. */
  lemma PruneKeepsTree(t: Nodes, path: Path)
    requires IsTree(t) && path != []
    ensures IsTree(Pruned(t, path))
  {
    forall p | p in Pruned(t, path) && p != []
      ensures Parent(p) in Pruned(t, path) && Pruned(t, path)[Parent(p)] == Dir
    {
      assert path <= Parent(p) ==> path <= p;
    }
  }

  /** A file "f" in the source and a directory "f" in the destination: success leaves the trees different. */
  method FileOverDirectoryExample(bufsz: nat) returns (ok: bool, result: Nodes, ghost faults: nat)
    requires bufsz > 0
    ensures ok <==> faults == 0
    ensures ok ==> result != map[[] := Dir, ["f"] := File("x")]
    ensures ok ==> ["f", "f"] in result && result[["f", "f"]] == File("x")
  {
    var src: Nodes := map[[] := Dir, ["f"] := File("x")];
    var dest: Nodes := map[[] := Dir, ["f"] := Dir];
    var walk: seq<Path> := [[], ["f"]];
    assert Parent(["f"]) == [];
    assert src[["f"]].File? && dest[["f"]] == Dir && !DirectoryOverFile(src, dest);
    var tree := new Tree(dest);
    ok := tree.RSyncWithDelete(src, walk, walk, bufsz);
    result, faults := tree.nodes, tree.faults;
    assert IsFileOverDir(src, Common(dest, src), ["f"]) && walk[1] in walk && Inside(["f"]) == ["f", "f"];
  }
}
