/**
 * Endpoint discovery over a directory walk. The walk itself is given as
 * data: one entry per directory `os.walk` visits, in its order, each with
 * its root and the files in it (name and text content).
 */
module Discovery {
  import opened Text
  import Routes

  /** An endpoint record: the file it was found in and the captured route text. */
  datatype Endpoint = Endpoint(filePath: string, path: string)

  /** One file of a walked directory, already read. */
  datatype SourceFile = SourceFile(name: string, content: string)

  /** One step of `os.walk`: a directory and the files directly in it. */
  datatype WalkEntry = WalkEntry(root: string, files: seq<SourceFile>)

  /** `os.path.join(root, name)` for a POSIX path. */
  function Join(root: string, name: string): string {
    if name != [] && name[0] == '/' then name
    else if root == [] || root[|root| - 1] == '/' then root + name
    else root + "/" + name
  }

  /** The `.py` filter on file names. */
  predicate IsPythonFile(f: SourceFile) {
    EndsWith(f.name, ".py")
  }

  /** `[(file_path, endpoint) for endpoint in matches]` */
  function Tag(filePath: string, routes: seq<string>): seq<Endpoint>
  {
    seq(|routes|, k requires 0 <= k < |routes| => Endpoint(filePath, routes[k]))
  }

  /** The records one file contributes: none unless its name ends `.py`. */
  function FileEndpoints(root: string, f: SourceFile): seq<Endpoint> {
    if IsPythonFile(f) then Tag(Join(root, f.name), Routes.FindRoutes(f.content)) else []
  }

  /** What `per` gives for each element of `xs`, concatenated in order: a loop that extends one list. */
  function Collect<T>(per: T -> seq<Endpoint>, xs: seq<T>): seq<Endpoint>
    decreases |xs|
  {
    if |xs| == 0 then []
    else Collect(per, xs[..|xs| - 1]) + per(xs[|xs| - 1])
  }

  /** One more element appends what it gives after whatever came before. */
  lemma CollectStep<T>(acc: seq<Endpoint>, per: T -> seq<Endpoint>, xs: seq<T>, i: nat)
    requires i < |xs|
    ensures acc + Collect(per, xs[..i + 1]) == acc + Collect(per, xs[..i]) + per(xs[i])
  {
    assert xs[..i + 1][..i] == xs[..i];
  }

  /** Collecting over two parts gives the two parts' results, in order. */
  lemma {:induction false} CollectAppend<T>(per: T -> seq<Endpoint>, a: seq<T>, b: seq<T>)
    ensures Collect(per, a + b) == Collect(per, a) + Collect(per, b)
    decreases |b|
  {
    if |b| == 0 {
      assert a + b == a;
    } else {
      var n := |b| - 1;
      var b' := b[..n];
      assert (a + b)[..|a + b| - 1] == a + b';
      assert (a + b)[|a + b| - 1] == b[n];
      CollectAppend(per, a, b');
      calc {
        Collect(per, a + b);
        Collect(per, a + b') + per(b[n]);
        Collect(per, a) + Collect(per, b') + per(b[n]);
        Collect(per, a) + (Collect(per, b') + per(b[n]));
        Collect(per, a) + Collect(per, b);
      }
    }
  }

  /** Everything collected comes from what one of the elements gives. */
  lemma {:induction false} CollectProvenance<T>(per: T -> seq<Endpoint>, xs: seq<T>, e: Endpoint)
    requires e in Collect(per, xs)
    ensures exists i :: 0 <= i < |xs| && e in per(xs[i])
    decreases |xs|
  {
    var n := |xs| - 1;
    if e in Collect(per, xs[..n]) {
      CollectProvenance(per, xs[..n], e);
      var i :| 0 <= i < n && e in per(xs[..n][i]);
      assert xs[..n][i] == xs[i];
    } else {
      assert e in per(xs[n]);
    }
  }

  /** The records the files of one directory contribute, in listing order. */
  function DirEndpoints(root: string, files: seq<SourceFile>): seq<Endpoint> {
    Collect((f: SourceFile) => FileEndpoints(root, f), files)
  }

  /** The records a whole walk contributes, in walk order. */
  function WalkEndpoints(walk: seq<WalkEntry>): seq<Endpoint> {
    Collect((d: WalkEntry) => DirEndpoints(d.root, d.files), walk)
  }

  /** Listing one more file of a directory adds that file's records at the end of whatever came before. */
  lemma DirEndpointsStep(acc: seq<Endpoint>, root: string, files: seq<SourceFile>, f: nat)
    requires f < |files|
    ensures acc + DirEndpoints(root, files[..f + 1]) == acc + DirEndpoints(root, files[..f]) + FileEndpoints(root, files[f])
  {
    CollectStep(acc, (f: SourceFile) => FileEndpoints(root, f), files, f);
  }

  /** Walking one more directory adds that directory's records at the end of whatever came before. */
  lemma WalkEndpointsStep(acc: seq<Endpoint>, walk: seq<WalkEntry>, d: nat)
    requires d < |walk|
    ensures acc + WalkEndpoints(walk[..d + 1]) == acc + WalkEndpoints(walk[..d]) + DirEndpoints(walk[d].root, walk[d].files)
  {
    CollectStep(acc, (d: WalkEntry) => DirEndpoints(d.root, d.files), walk, d);
  }

  /** Listing a directory in two parts contributes the two parts' records, in order. */
  lemma DirEndpointsAppend(root: string, a: seq<SourceFile>, b: seq<SourceFile>)
    ensures DirEndpoints(root, a + b) == DirEndpoints(root, a) + DirEndpoints(root, b)
  {
    CollectAppend((f: SourceFile) => FileEndpoints(root, f), a, b);
  }

  /** Walking in two parts contributes the two parts' records, in order. */
  lemma WalkEndpointsAppend(a: seq<WalkEntry>, b: seq<WalkEntry>)
    ensures WalkEndpoints(a + b) == WalkEndpoints(a) + WalkEndpoints(b)
  {
    CollectAppend((d: WalkEntry) => DirEndpoints(d.root, d.files), a, b);
  }

  /** A file whose name does not end `.py` adds nothing, wherever it is listed. */
  lemma NonPythonFileAddsNothing(root: string, a: seq<SourceFile>, f: SourceFile, b: seq<SourceFile>)
    requires !IsPythonFile(f)
    ensures DirEndpoints(root, a + [f] + b) == DirEndpoints(root, a + b)
  {
    DirEndpointsAppend(root, a + [f], b);
    DirEndpointsAppend(root, a, [f]);
    DirEndpointsAppend(root, a, b);
    DirEndpointsStep([], root, [f], 0);
    assert [f][..1] == [f] && [f][..0] == [];
  }

  /** Every record of one directory comes from one of its `.py` files. */
  lemma DirEndpointsProvenance(root: string, files: seq<SourceFile>, e: Endpoint)
    requires e in DirEndpoints(root, files)
    ensures exists f :: f in files && IsPythonFile(f)
              && e.filePath == Join(root, f.name) && e.path in Routes.FindRoutes(f.content)
  {
    CollectProvenance((f: SourceFile) => FileEndpoints(root, f), files, e);
    var i :| 0 <= i < |files| && e in FileEndpoints(root, files[i]);
    var f := files[i];
    assert IsPythonFile(f);
    var routes := Routes.FindRoutes(f.content);
    var tagged := Tag(Join(root, f.name), routes);
    var k :| 0 <= k < |tagged| && tagged[k] == e;
    assert routes[k] == e.path;
  }

  /**
   * Every record comes from a `.py` file of the walk: its file path is
   * that file's joined path and its route is one the pattern captured in
   * that file's text.
   */
  lemma WalkEndpointsProvenance(walk: seq<WalkEntry>, e: Endpoint)
    requires e in WalkEndpoints(walk)
    ensures exists d, f :: 0 <= d < |walk| && f in walk[d].files && IsPythonFile(f)
              && e.filePath == Join(walk[d].root, f.name) && e.path in Routes.FindRoutes(f.content)
  {
    CollectProvenance((d: WalkEntry) => DirEndpoints(d.root, d.files), walk, e);
    var d :| 0 <= d < |walk| && e in DirEndpoints(walk[d].root, walk[d].files);
    DirEndpointsProvenance(walk[d].root, walk[d].files, e);
  }
}
