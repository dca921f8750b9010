/** The generated-tree writer over a flat map from path to contents. */
module TreeWriter {
  import opened Text
  import opened Sorting
  import opened Codecs

  const MANIFEST_PATH := "service-builder.manifest.json"
  const MANIFEST_FORMAT := "service-builder-output/1"

  type Files = map<string, string>
  datatype Manifest = Manifest(format: string, files: map<string, string>)

  /** Digest and manifest text, left open except that a written manifest reads back. */
  datatype Env = Env(digest: string -> string, render: Manifest -> string, parse: string -> Option<Manifest>)
  {
    ghost predicate Lawful() { forall m :: parse(render(m)) == Some(m) }
  }

  // ---- paths ----

  function Components(path: string): seq<string>
    decreases |path|
  {
    match SplitOnce(path, '/')
    case None => [path]
    case Some((head, tail)) => [head] + Components(tail)
  }

  predicate ValidPath(path: string) {
    path != "" && '\\' !in path && forall i :: 0 <= i < |Components(path)| ==> Components(path)[i] !in ["", ".", ".."]
  }

  /** What `insert` keeps true of a tree. */
  ghost predicate Owned(files: Files) { forall p :: p in files ==> ValidPath(p) && p != MANIFEST_PATH }

  // ---- rendering ----

  function Digests(env: Env, files: Files): map<string, string> { map p | p in files :: env.digest(files[p]) }

  function Rendered(env: Env, files: Files): Files {
    files[MANIFEST_PATH := env.render(Manifest(MANIFEST_FORMAT, Digests(env, files)))]
  }

  predicate ValidManifest(m: Manifest) {
    m.format == MANIFEST_FORMAT && forall p :: p in m.files ==> ValidPath(p) && p != MANIFEST_PATH
  }

  /** The manifest that governs a non-empty root, when there is a usable one. */
  function Governing(env: Env, disk: Files): Option<Manifest> {
    if MANIFEST_PATH !in disk then None
    else
      var m := env.parse(disk[MANIFEST_PATH]);
      if m.Some? && ValidManifest(m.value) then m else None
  }

  function OwnedPaths(m: Manifest): set<string> { m.files.Keys + {MANIFEST_PATH} }

  /** Owned paths that the new tree no longer has. */
  function Stale(m: Manifest, rendered: Files): set<string> { set p | p in OwnedPaths(m) && p !in rendered }

  /** A stale file whose bytes no longer have the recorded digest. */
  predicate Modified(env: Env, m: Manifest, disk: Files, p: string) {
    p in m.files && p in disk && env.digest(disk[p]) != m.files[p]
  }

  /** Exactly when `write` goes through; a caller can evaluate it beforehand. */
  ghost predicate Writable(env: Env, disk: Files, rendered: Files) {
    disk == map[] || (
      var m := Governing(env, disk);
      && m.Some? && disk.Keys <= OwnedPaths(m.value)
      && forall p :: p in Stale(m.value, rendered) ==> !Modified(env, m.value, disk, p))
  }

  /** The first modified stale file in path order. */
  ghost predicate FirstModified(env: Env, m: Manifest, disk: Files, rendered: Files, p: string) {
    && p in Stale(m, rendered) && Modified(env, m, disk, p)
    && (forall q :: q in Stale(m, rendered) && Less(q, p) ==> !Modified(env, m, disk, q))
  }

  /** A file that a refused write removes before it stops: stale, on disk, before the first modified one. */
  ghost predicate Lost(env: Env, m: Manifest, disk: Files, rendered: Files, q: string) {
    q in Stale(m, rendered) && q in disk && exists p :: FirstModified(env, m, disk, rendered, p) && Less(q, p)
  }

  /** Exactly when a refused write has changed the root; a caller can evaluate it beforehand. */
  ghost predicate LosesFiles(env: Env, disk: Files, rendered: Files) {
    var m := Governing(env, disk);
    m.Some? && disk.Keys <= OwnedPaths(m.value) && exists q :: Lost(env, m.value, disk, rendered, q)
  }

  /** How far a refused write got: stale files before the first modified one are already gone. */
  ghost predicate StoppedAt(env: Env, m: Manifest, disk: Files, rendered: Files, after: Files, p: string) {
    && FirstModified(env, m, disk, rendered, p)
    && after == disk - (set q | q in Stale(m, rendered) && Less(q, p))
  }

  datatype Drift = Missing(path: string) | Unexpected(path: string) | Changed(path: string)

  function Rank(d: Drift): nat { match d case Missing(_) => 0 case Unexpected(_) => 1 case Changed(_) => 2 }

  /** The derived order: by variant, then by path. */
  predicate DriftLeq(a: Drift, b: Drift) { Rank(a) < Rank(b) || (Rank(a) == Rank(b) && AtMost(a.path, b.path)) }

  lemma DriftOrder()
    ensures TotalPreorder(DriftLeq)
  {
    forall a: Drift, b: Drift ensures DriftLeq(a, b) || DriftLeq(b, a) { LessTotal(a.path, b.path); }
    forall a: Drift, b: Drift, c: Drift | DriftLeq(a, b) && DriftLeq(b, c) ensures DriftLeq(a, c) {
      if Less(a.path, b.path) && Less(b.path, c.path) { LessTransitive(a.path, b.path, c.path); }
    }
  }

  /** In sorted drift, all missing files come first, then unexpected, then changed ones, each kind by path. */
  lemma SortedDriftIs(s: seq<Drift>, i: nat, j: nat)
    requires IsSorted(s, DriftLeq) && i < j < |s|
    ensures s[j].Missing? ==> s[i].Missing?
    ensures s[j].Unexpected? ==> !s[i].Changed?
    ensures (s[i].Missing? <==> s[j].Missing?) && (s[i].Changed? <==> s[j].Changed?) ==> AtMost(s[i].path, s[j].path)
  {
    assert DriftLeq(s[i], s[j]);
  }

  /** One difference between the expected and the committed root. */
  ghost predicate Differs(expected: Files, actual: Files, d: Drift) {
    match d
    case Missing(p) => p in expected && p !in actual
    case Changed(p) => p in expected && p in actual && actual[p] != expected[p]
    case Unexpected(p) => p in actual && p !in expected
  }

  ghost predicate Distinct(s: seq<Drift>) { forall i, j :: 0 <= i < j < |s| ==> s[i] != s[j] }

  lemma NoDriftMeansEqual(expected: Files, actual: Files)
    ensures (forall d :: !Differs(expected, actual, d)) <==> expected == actual
  {
    if forall d :: !Differs(expected, actual, d) {
      forall p | p in expected ensures p in actual && actual[p] == expected[p] {
        assert !Differs(expected, actual, Missing(p)) && !Differs(expected, actual, Changed(p));
      }
      forall p | p in actual ensures p in expected {
        assert !Differs(expected, actual, Unexpected(p));
      }
    }
  }

  lemma SortedDrift(s: seq<Drift>)
    ensures forall d :: d in Sort(s, DriftLeq) <==> d in s
    ensures |Sort(s, DriftLeq)| == |s|
  {
    DriftOrder();
    SortSorts(s, DriftLeq);
    SameLength(Sort(s, DriftLeq), s);
    forall d: Drift ensures d in Sort(s, DriftLeq) <==> d in s {
      assert d in multiset(Sort(s, DriftLeq)) <==> d in multiset(s);
    }
  }

  lemma DistinctSorted(s: seq<Drift>)
    requires Distinct(s)
    ensures Distinct(Sort(s, DriftLeq))
  {
    DriftOrder();
    SortSorts(s, DriftLeq);
    var t := Sort(s, DriftLeq);
    forall i, j | 0 <= i < j < |t| ensures t[i] != t[j] {
      if t[i] == t[j] {
        TwiceInMultiset(t, i, j);
        OnceInMultiset(s, t[i]);
      }
    }
  }

  lemma TwiceInMultiset(t: seq<Drift>, i: nat, j: nat)
    requires i < j < |t| && t[i] == t[j]
    ensures multiset(t)[t[i]] >= 2
  {
    assert t == t[..i] + [t[i]] + t[i + 1..j] + [t[j]] + t[j + 1..];
  }

  lemma {:induction false} OnceInMultiset(s: seq<Drift>, d: Drift)
    requires Distinct(s)
    ensures multiset(s)[d] <= 1
  {
    if s != [] {
      OnceInMultiset(s[1..], d);
      assert s == [s[0]] + s[1..];
      if s[0] == d { assert d !in s[1..]; }
    }
  }

  // ---- the mutable tree and root ----

  /** The root directory that `write` changes file by file. */
  class Root {
    var files: Files

    constructor ()
      ensures files == map[]
    {
      files := map[];
    }
  }

  class ArtifactTree {
    var files: Files

    constructor ()
      ensures files == map[] && Owned(files)
    {
      files := map[];
    }

    /** A duplicate is reported after the new contents have replaced the old. */
    method Insert(path: string, contents: string) returns (ok: bool)
      requires Owned(files)
      modifies this
      ensures Owned(files)
      ensures ok <==> ValidPath(path) && path != MANIFEST_PATH && path !in old(files)
      ensures files == if ValidPath(path) && path != MANIFEST_PATH then old(files)[path := contents] else old(files)
    {
      if !ValidPath(path) {
        return false;
      }
      if path == MANIFEST_PATH {
        return false;
      }
      ok := path !in files;
      files := files[path := contents];
    }

    /** `check`: exactly the differences, each once, in the derived order. */
    method Check(env: Env, root: Root) returns (drift: seq<Drift>)
      ensures IsSorted(drift, DriftLeq) && Distinct(drift)
      ensures forall d :: d in drift <==> Differs(Rendered(env, files), root.files, d)
      ensures drift == [] <==> root.files == Rendered(env, files)
    {
      var expected, actual := Rendered(env, files), root.files;
      var found: seq<Drift> := [];
      var todo := expected.Keys;
      while todo != {}
        invariant todo <= expected.Keys && Distinct(found)
        invariant forall d :: d in found <==> !d.Unexpected? && d.path !in todo && Differs(expected, actual, d)
      {
        var p :| p in todo;
        if p !in actual {
          found := found + [Missing(p)];
        } else if actual[p] != expected[p] {
          found := found + [Changed(p)];
        }
        todo := todo - {p};
      }
      var rest := actual.Keys;
      while rest != {}
        invariant rest <= actual.Keys && Distinct(found)
        invariant forall d :: d in found <==> Differs(expected, actual, d) && (d.Unexpected? ==> d.path !in rest)
      {
        var p :| p in rest;
        if p !in expected {
          found := found + [Unexpected(p)];
        }
        rest := rest - {p};
      }
      DriftOrder();
      SortSorts(found, DriftLeq);
      SortedDrift(found);
      DistinctSorted(found);
      NoDriftMeansEqual(expected, actual);
      drift := Sort(found, DriftLeq);
      assert drift == [] <==> forall d :: d !in drift by {
        if drift != [] { assert drift[0] in drift; }
      }
    }

    /** Remove the stale files in path order, stopping at the first modified one. */
    method RemoveStale(env: Env, m: Manifest, root: Root, rendered: Files) returns (ok: bool)
      requires MANIFEST_PATH in rendered
      modifies root
      ensures ok <==> forall p :: p in Stale(m, rendered) ==> !Modified(env, m, old(root.files), p)
      ensures ok ==> root.files == old(root.files) - Stale(m, rendered)
      ensures !ok ==> exists p :: StoppedAt(env, m, old(root.files), rendered, root.files, p)
    {
      ghost var disk := root.files;
      var stale := Stale(m, rendered);
      var todo := stale;
      assert disk - (stale - todo) == disk;
      while todo != {}
        invariant todo <= stale && root.files == disk - (stale - todo)
        invariant forall p :: p in stale - todo ==> !Modified(env, m, disk, p)
        invariant forall p, q :: p in stale - todo && q in todo ==> Less(p, q)
      {
        ghost var least := LeastKey(todo);
        var p :| p in todo && IsLeast(todo, p);
        if p in root.files && env.digest(root.files[p]) != m.files[p] {
          StopHere(env, m, disk, rendered, stale, todo, p);
          return false;
        }
        root.files := root.files - {p};
        forall q | q in todo && q != p ensures Less(p, q) { LeastBelow(todo, p, q); }
        assert stale - (todo - {p}) == (stale - todo) + {p};
        todo := todo - {p};
      }
      assert stale - todo == stale;
      ok := true;
    }

    /** `write`: all or a stated part. */
    method Write(env: Env, root: Root) returns (ok: bool)
      requires Owned(files)
      modifies root
      ensures ok <==> Writable(env, old(root.files), Rendered(env, files))
      ensures ok ==> root.files == Rendered(env, files)
      ensures !ok ==>
        root.files == old(root.files) || StoppedEarly(env, old(root.files), Rendered(env, files), root.files)
      ensures !ok ==> (root.files != old(root.files) <==> LosesFiles(env, old(root.files), Rendered(env, files)))
      ensures Protects(env, old(root.files), Rendered(env, files), root.files)
      ensures unchanged(this)
    {
      var rendered := Rendered(env, files);
      var existing := root.files;
      if existing != map[] {
        if MANIFEST_PATH !in existing {
          return false;
        }
        var manifest := env.parse(existing[MANIFEST_PATH]);
        if manifest.None? || !ValidManifest(manifest.value) {
          return false;
        }
        if !(existing.Keys <= OwnedPaths(manifest.value)) {
          return false;
        }
        ok := RemoveStale(env, manifest.value, root, rendered);
        if !ok {
          RefusedWriteProtects(env, existing, rendered, root.files);
          RefusedWriteLoses(env, existing, rendered, root.files);
          return;
        }
      }
      assert root.files.Keys <= rendered.Keys;
      var todo := rendered.Keys;
      while todo != {}
        invariant todo <= rendered.Keys && root.files.Keys <= rendered.Keys
        invariant forall p :: p in rendered && p !in todo ==> p in root.files && root.files[p] == rendered[p]
      {
        var p :| p in todo;
        root.files := root.files[p := rendered[p]];
        todo := todo - {p};
      }
      assert root.files == rendered;
      WriteProtects(env, existing, rendered);
      ok := true;
    }
  }

  lemma StopHere(env: Env, m: Manifest, disk: Files, rendered: Files, stale: set<string>, todo: set<string>, p: string)
    requires stale == Stale(m, rendered) && todo <= stale && IsLeast(todo, p) && Modified(env, m, disk, p)
    requires forall q :: q in stale - todo ==> !Modified(env, m, disk, q)
    requires forall q, r :: q in stale - todo && r in todo ==> Less(q, r)
    ensures StoppedAt(env, m, disk, rendered, disk - (stale - todo), p)
  {
    forall q | q in stale ensures Less(q, p) <==> q !in todo {
      LessTotal(q, p);
      if q !in todo { assert q in stale - todo; }
    }
    assert (set q | q in stale && Less(q, p)) == stale - todo;
  }

  // ---- whole-run guarantees ----

  /** A root just written by one tree accepts any other tree. */
  lemma RewriteIsWritable(env: Env, files: Files, next: Files)
    requires env.Lawful() && Owned(files)
    ensures Writable(env, Rendered(env, files), Rendered(env, next))
  {
    var disk, m := Rendered(env, files), Manifest(MANIFEST_FORMAT, Digests(env, files));
    assert env.parse(env.render(m)) == Some(m);
    assert Governing(env, disk) == Some(m);
  }

  /** Disk after writing trees one after another into an empty root; `None` once a write is refused. */
  ghost function RunWrites(env: Env, trees: seq<Files>): Option<Files> {
    if trees == [] then Some(map[])
    else
      var before := RunWrites(env, trees[..|trees| - 1]);
      var rendered := Rendered(env, trees[|trees| - 1]);
      if before.Some? && Writable(env, before.value, rendered) then Some(rendered) else None
  }

  /** Every write of every sequence of trees succeeds and leaves exactly the last tree. */
  lemma {:induction false} WritesNeverRefused(env: Env, trees: seq<Files>)
    requires env.Lawful() && forall i :: 0 <= i < |trees| ==> Owned(trees[i])
    ensures RunWrites(env, trees) == Some(if trees == [] then map[] else Rendered(env, trees[|trees| - 1]))
  {
    if trees != [] {
      var n := |trees| - 1;
      WritesNeverRefused(env, trees[..n]);
      if n > 0 { RewriteIsWritable(env, trees[n - 1], trees[n]); }
    }
  }

  /** A write keeps what it must not touch, whether it succeeds or is refused. */
  ghost predicate Protects(env: Env, before: Files, rendered: Files, after: Files) {
    forall p :: p in before ==>
      || (p in after && after[p] == before[p])
      || (p in after && p in rendered && after[p] == rendered[p] && OwnedBefore(env, before, p))
      || (p !in after && p !in rendered && Intact(env, before, p))
  }

  ghost predicate OwnedBefore(env: Env, before: Files, p: string) {
    Governing(env, before).Some? && p in OwnedPaths(Governing(env, before).value)
  }

  /** Owned, with the bytes the manifest recorded. */
  ghost predicate Intact(env: Env, before: Files, p: string) {
    && OwnedBefore(env, before, p) && p in before
    && p in Governing(env, before).value.files && env.digest(before[p]) == Governing(env, before).value.files[p]
  }

  /** A refusal at a modified stale file, after every existing file was found to be owned. */
  ghost predicate StoppedEarly(env: Env, before: Files, rendered: Files, after: Files) {
    var m := Governing(env, before);
    m.Some? && before.Keys <= OwnedPaths(m.value) && exists p :: StoppedAt(env, m.value, before, rendered, after, p)
  }

  lemma RefusedWriteProtects(env: Env, before: Files, rendered: Files, after: Files)
    requires StoppedEarly(env, before, rendered, after) && MANIFEST_PATH in rendered
    ensures Protects(env, before, rendered, after)
  {
    var m := Governing(env, before).value;
    var p :| StoppedAt(env, m, before, rendered, after, p);
    forall q | q in before && q !in after ensures Intact(env, before, q) && q !in rendered {
      assert q in Stale(m, rendered) && Less(q, p);
    }
  }

  /** A refusal at a modified file has changed the root exactly when some stale file came before it. */
  lemma RefusedWriteLoses(env: Env, before: Files, rendered: Files, after: Files)
    requires StoppedEarly(env, before, rendered, after)
    ensures after != before <==> LosesFiles(env, before, rendered)
  {
    var m := Governing(env, before).value;
    var p :| StoppedAt(env, m, before, rendered, after, p);
    var gone := set q | q in Stale(m, rendered) && Less(q, p);
    if LosesFiles(env, before, rendered) {
      var q :| Lost(env, m, before, rendered, q);
      var r :| FirstModified(env, m, before, rendered, r) && Less(q, r);
      LessTotal(p, r);
      assert q in gone;
    } else {
      forall q | q in before ensures q !in gone {
        if q in gone { assert Lost(env, m, before, rendered, q); }
      }
      assert after == before;
    }
  }

  lemma WriteProtects(env: Env, before: Files, rendered: Files)
    requires Writable(env, before, rendered) && MANIFEST_PATH in rendered
    ensures Protects(env, before, rendered, rendered)
  {
    if before != map[] {
      var m := Governing(env, before).value;
      forall p | p in before && p !in rendered ensures Intact(env, before, p) {
        assert p in Stale(m, rendered);
      }
    }
  }

  // ---- what paths, rendered trees and writable roots are ----

  function Join(parts: seq<string>): string
    requires parts != []
  {
    if |parts| == 1 then parts[0] else parts[0] + (['/'] + Join(parts[1..]))
  }

  lemma {:induction false} ComponentsJoin(path: string)
    ensures Components(path) != [] && Join(Components(path)) == path
    ensures forall i :: 0 <= i < |Components(path)| ==> '/' !in Components(path)[i]
    decreases |path|
  {
    if SplitOnce(path, '/').Some? {
      var (head, tail) := SplitOnce(path, '/').value;
      SplitOnceMeans(path, '/');
      ComponentsJoin(tail);
      assert Components(path) == [head] + Components(tail) && Components(path)[1..] == Components(tail);
    } else {
      assert path[..IndexOf(path, '/')] == path;
    }
  }

  lemma {:induction false} JoinComponents(parts: seq<string>)
    requires parts != [] && forall i :: 0 <= i < |parts| ==> '/' !in parts[i]
    ensures Components(Join(parts)) == parts
  {
    if |parts| == 1 {
      assert SplitOnce(parts[0], '/').None?;
    } else {
      SplitOnceConcat(parts[0], '/', Join(parts[1..]));
      JoinComponents(parts[1..]);
    }
  }

  /** A part of a valid path: not empty, not a step in place or upward, and free of both separators. */
  predicate PlainPart(part: string) { part !in ["", ".", ".."] && '/' !in part && '\\' !in part }

  lemma {:induction false} JoinFree(parts: seq<string>, c: char)
    requires parts != [] && c != '/'
    ensures c in Join(parts) <==> exists i :: 0 <= i < |parts| && c in parts[i]
  {
    if |parts| > 1 {
      JoinFree(parts[1..], c);
      assert forall i :: 0 < i < |parts| ==> parts[i] == parts[1..][i - 1];
      if i :| 0 <= i < |parts[1..]| && c in parts[1..][i] { assert c in parts[i + 1]; }
    }
  }

  /** The valid paths are exactly the slash-joined lists of plain parts. */
  lemma ValidPathIff(path: string)
    ensures ValidPath(path) <==>
      exists parts :: parts != [] && path == Join(parts) && forall i :: 0 <= i < |parts| ==> PlainPart(parts[i])
  {
    if ValidPath(path) {
      var parts := Components(path);
      ComponentsJoin(path);
      JoinFree(parts, '\\');
      assert forall i :: 0 <= i < |parts| ==> '\\' !in parts[i];
    }
    if parts :| parts != [] && path == Join(parts) && forall i :: 0 <= i < |parts| ==> PlainPart(parts[i]) {
      JoinComponents(parts);
      JoinFree(parts, '\\');
      assert parts[0] != "" && path != "";
    }
  }

  /** A rendered tree is its files and a manifest of exactly their digests. */
  lemma RenderedIs(env: Env, files: Files, p: string)
    requires env.Lawful() && Owned(files)
    ensures p in Rendered(env, files) <==> p in files || p == MANIFEST_PATH
    ensures p in files ==> Rendered(env, files)[p] == files[p]
    ensures exists m :: (
      && env.parse(Rendered(env, files)[MANIFEST_PATH]) == Some(m) && m.format == MANIFEST_FORMAT
      && m.files.Keys == files.Keys && forall q :: q in files ==> m.files[q] == env.digest(files[q]))
  {
    var m := Manifest(MANIFEST_FORMAT, Digests(env, files));
    assert env.parse(env.render(m)) == Some(m);
  }

  /** The manifest on disk is of this format, lists only valid paths, and owns every file of the root. */
  ghost predicate OwnsRoot(env: Env, disk: Files, m: Manifest) {
    && MANIFEST_PATH in disk && env.parse(disk[MANIFEST_PATH]) == Some(m) && m.format == MANIFEST_FORMAT
    && (forall p :: p in m.files ==> ValidPath(p) && p != MANIFEST_PATH)
    && (forall p :: p in disk ==> p in m.files || p == MANIFEST_PATH)
  }

  /** Every file that the tree no longer has still has the digest the manifest recorded. */
  ghost predicate Unmodified(env: Env, disk: Files, m: Manifest, rendered: Files) {
    forall p :: p in m.files && p !in rendered && p in disk ==> env.digest(disk[p]) == m.files[p]
  }

  /** A root accepts a tree exactly when it is empty, or owned with every file to be removed unmodified. */
  lemma WritableIff(env: Env, disk: Files, rendered: Files)
    requires MANIFEST_PATH in rendered
    ensures Writable(env, disk, rendered) <==>
      disk == map[] || exists m :: OwnsRoot(env, disk, m) && Unmodified(env, disk, m, rendered)
  {
    if disk != map[] && Writable(env, disk, rendered) {
      var m := Governing(env, disk).value;
      forall p | p in m.files && p !in rendered && p in disk ensures env.digest(disk[p]) == m.files[p] {
        assert p in Stale(m, rendered);
      }
      assert OwnsRoot(env, disk, m) && Unmodified(env, disk, m, rendered);
    }
    if m :| OwnsRoot(env, disk, m) && Unmodified(env, disk, m, rendered) {
      assert Governing(env, disk) == Some(m);
    }
  }

  // ---- a refused write that is not a no-op ----

  /** A root written by a tree of `a` and `b`, after somebody edited `b`. */
  function EditedRoot(env: Env): Files { Rendered(env, map["a" := "1", "b" := "1"])["b" := "2"] }

  lemma ShortPaths()
    ensures ValidPath("a") && ValidPath("b") && Less("a", "b")
    ensures "a" != MANIFEST_PATH && "b" != MANIFEST_PATH
  {
    assert Components("a") == ["a"] && Components("b") == ["b"];
    assert |MANIFEST_PATH| > 1;
  }

  /** Writing the empty tree over it is refused at `b`, when `a` is already gone. */
  lemma RefusedWriteIsNotAtomic(env: Env)
    requires env.Lawful() && env.digest("1") != env.digest("2")
    ensures var disk, rendered := EditedRoot(env), Rendered(env, map[]);
      && !Writable(env, disk, rendered) && LosesFiles(env, disk, rendered)
      && Governing(env, disk).Some? && "a" in disk
      && StoppedAt(env, Governing(env, disk).value, disk, rendered, disk - {"a"}, "b")
  {
    ShortPaths();
    var files := map["a" := "1", "b" := "1"];
    var disk, rendered, m := EditedRoot(env), Rendered(env, map[]), Manifest(MANIFEST_FORMAT, Digests(env, files));
    assert env.parse(env.render(m)) == Some(m);
    assert Governing(env, disk) == Some(m);
    assert Stale(m, rendered) == {"a", "b"};
    LessTotal("a", "b");
    LessTotal("b", "b");
    assert (set q | q in Stale(m, rendered) && Less(q, "b")) == {"a"};
    assert FirstModified(env, m, disk, rendered, "b");
    assert Lost(env, m, disk, rendered, "a");
  }

  // ---- a lawful environment exists ----

  /** Least key first, every part framed by its length. */
  ghost function Spell(files: map<string, string>): string {
    if files == map[] then ""
    else
      var k := Least(files.Keys);
      Framed(k) + (Framed(files[k]) + Spell(files - {k}))
  }

  ghost function Least(keys: set<string>): (k: string)
    requires keys != {}
    ensures IsLeast(keys, k)
  {
    assert exists k :: IsLeast(keys, k) by { var k := LeastKey(keys); }
    var k :| IsLeast(keys, k); k
  }

  lemma SpellParts(files: map<string, string>) returns (k: string, rest: map<string, string>)
    requires files != map[]
    ensures k in files && rest == files - {k} && |rest| < |files| && files == rest[k := files[k]]
    ensures Spell(files) == Framed(k) + (Framed(files[k]) + Spell(rest)) && Spell(files) != ""
  {
    k := Least(files.Keys);
    rest := files - {k};
    assert rest.Keys == files.Keys - {k};
  }

  lemma {:induction false} SpellInjective(a: map<string, string>, b: map<string, string>)
    requires Spell(a) == Spell(b)
    ensures a == b
    decreases |a|
  {
    if a != map[] && b != map[] {
      var k, rest := SpellParts(a);
      var j, other := SpellParts(b);
      FramedUnique(k, Framed(a[k]) + Spell(rest), j, Framed(b[j]) + Spell(other));
      FramedUnique(a[k], Spell(rest), b[j], Spell(other));
      SpellInjective(rest, other);
    } else if a != map[] {
      var k, rest := SpellParts(a);
    } else if b != map[] {
      var j, other := SpellParts(b);
    }
  }

  ghost function SpellManifest(m: Manifest): string { Framed(m.format) + Spell(m.files) }

  ghost function ReadManifest(text: string): Option<Manifest> {
    if exists m :: SpellManifest(m) == text then
      var m :| SpellManifest(m) == text; Some(m)
    else None
  }

  lemma ReadsBack(m: Manifest)
    ensures ReadManifest(SpellManifest(m)) == Some(m)
  {
    var text := SpellManifest(m);
    assert exists n :: SpellManifest(n) == text;
    var n := ReadManifest(text).value;
    FramedUnique(n.format, Spell(n.files), m.format, Spell(m.files));
    SpellInjective(n.files, m.files);
  }

  /** The one law asked of an environment can be met, with a digest that tells contents apart. */
  lemma LawfulEnvExists() returns (env: Env)
    ensures env.Lawful() && forall a, b :: env.digest(a) == env.digest(b) ==> a == b
  {
    env := Env(s => s, m => SpellManifest(m), t => ReadManifest(t));
    forall m ensures env.parse(env.render(m)) == Some(m) {
      ReadsBack(m);
    }
  }
}
