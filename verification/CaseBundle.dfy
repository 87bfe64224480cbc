/** Portable case bundles, as src/jaull/cases/bundle.py exports and loads them: every record and evidence
    file copied into one directory, every byte of them hashed in a manifest. */
module CaseBundle {
  import opened Common
  import opened Digests
  import opened Sorting
  import opened Text

  /** A path below a directory, in normal form: no empty, "." or ".." part. */
  type RelPath = seq<string>

  type Files = map<RelPath, Content>

  datatype Reference = Reference(path: string, sha256: Option<string>, sizeBytes: Option<nat>, note: string)

  datatype BundleFile = BundleFile(path: RelPath, sha256: string, sizeBytes: nat)

  datatype BenchmarkFile = BenchmarkFile(benchmarkId: string, file: BundleFile)

  datatype EvidenceFile = EvidenceFile(reference: Reference, file: BundleFile)

  datatype Case = Case(experimentId: string, benchmarkIds: seq<string>, evidence: seq<Reference>, body: string)

  datatype Experiment = Experiment(experimentId: string, body: string)

  datatype Benchmark = Benchmark(benchmarkId: string, body: string)

  datatype Manifest = Manifest(
    provenance: string, caseFile: BundleFile, experimentFile: BundleFile,
    benchmarkFiles: seq<BenchmarkFile>, evidenceFiles: seq<EvidenceFile>)

  /** CaseBundleError; a value its own validator refuses; a failed file operation, always reported as the first. */
  datatype Error = BundleError | Invalid | IoError

  // ---------------------------------------------------------------- names

  /** Splitting at slashes; empty parts and single dots disappear, as in any path join. */
  function Parts(path: string, part: string): RelPath
    decreases |path|
  {
    if path == "" then Keep(part)
    else if path[0] == '/' then Keep(part) + Parts(path[1..], "")
    else Parts(path[1..], part + [path[0]])
  }

  function Keep(part: string): RelPath { if part == "" || part == "." then [] else [part] }

  function JoinParts(parts: RelPath): string {
    if parts == [] then ""
    else if |parts| == 1 then parts[0]
    else parts[0] + "/" + JoinParts(parts[1..])
  }

  predicate IsPart(part: string) { part != "" && part != "." && '/' !in part }

  lemma {:induction false} PartsUpToSlash(part: string, acc: string, rest: string)
    requires '/' !in part
    ensures Parts(part, acc) == Keep(acc + part)
    ensures Parts(part + "/" + rest, acc) == Keep(acc + part) + Parts(rest, "")
    decreases |part|
  {
    if part == "" {
      assert acc + part == acc;
      assert (part + "/" + rest)[0] == '/' && (part + "/" + rest)[1..] == rest;
    } else {
      PartsUpToSlash(part[1..], acc + [part[0]], rest);
      assert part == [part[0]] + part[1..];
      assert acc + part == acc + [part[0]] + part[1..];
      assert (part + "/" + rest)[0] == part[0] && (part + "/" + rest)[1..] == part[1..] + "/" + rest;
    }
  }

  /** A path written with slashes is read back as its parts. */
  lemma {:induction false} PartsOfJoined(parts: RelPath)
    requires forall i :: 0 <= i < |parts| ==> IsPart(parts[i])
    ensures Parts(JoinParts(parts), "") == parts
  {
    if parts != [] {
      assert "" + parts[0] == parts[0];
      if |parts| == 1 {
        PartsUpToSlash(parts[0], "", "");
      } else {
        PartsOfJoined(parts[1..]);
        PartsUpToSlash(parts[0], "", JoinParts(parts[1..]));
        assert parts == [parts[0]] + parts[1..];
      }
    }
  }

  const BUNDLE_PATH: RelPath := ["bundle.json"]
  const CASE_PATH: RelPath := ["case.json"]
  const EXPERIMENT_PATH: RelPath := ["records", "experiment.json"]

  function BenchmarkPath(id: string): RelPath { ["records", "benchmarks", id + ".json"] }

  function EvidencePath(r: Reference): RelPath { ["evidence"] + Parts(r.path, "") }

  // ---------------------------------------------------------------- the codec

  /** JSON printing and parsing, each parser refusing what its model refuses. */
  datatype Codec = Codec(
    printCase: Case -> Content, parseCase: Content -> Option<Case>,
    printExperiment: Experiment -> Content, parseExperiment: Content -> Option<Experiment>,
    printBenchmark: Benchmark -> Content, parseBenchmark: Content -> Option<Benchmark>,
    printManifest: Manifest -> Content, parseManifest: Content -> Option<Manifest>)
  {
    /** Printing then parsing gives back every value its own validator accepts. */
    ghost predicate Faithful() {
      && (forall c :: CaseOk(c) ==> parseCase(printCase(c)) == Some(c))
      && (forall x :: parseExperiment(printExperiment(x)) == Some(x))
      && (forall b :: parseBenchmark(printBenchmark(b)) == Some(b))
      && (forall m :: ManifestOk(m) ==> parseManifest(printManifest(m)) == Some(m))
    }
  }

  function PathsOf(m: Manifest): seq<RelPath> {
    [m.caseFile.path, m.experimentFile.path]
    + seq(|m.benchmarkFiles|, i requires 0 <= i < |m.benchmarkFiles| => m.benchmarkFiles[i].file.path)
    + seq(|m.evidenceFiles|, i requires 0 <= i < |m.evidenceFiles| => m.evidenceFiles[i].file.path)
  }

  /** What the case's own validator leaves: no benchmark is listed twice, and they are sorted. */
  ghost predicate CaseOk(c: Case) {
    Distinct(c.benchmarkIds) && Ordered(StringBefore, c.benchmarkIds)
  }

  /** The manifest's own validator: unique paths, unique benchmark ids. */
  predicate ManifestOk(m: Manifest) {
    && Distinct(PathsOf(m))
    && Distinct(seq(|m.benchmarkFiles|, i requires 0 <= i < |m.benchmarkFiles| => m.benchmarkFiles[i].benchmarkId))
  }

  // ---------------------------------------------------------------- evidence and records

  predicate EvidenceMatches(r: Reference, root: Files, below: RelPath, sha: Content -> string) {
    var path := below + Parts(r.path, "");
    && path in root
    && (r.sizeBytes.Some? ==> |root[path]| == r.sizeBytes.value)
    && (r.sha256.Some? ==> sha(root[path]) == Lower(r.sha256.value))
  }

  /** The bytes are those a reference published a size and a digest for. */
  predicate AsReferenced(r: Reference, bytes: Content, sha: Content -> string) {
    && (match r.sizeBytes case None => true case Some(size) => |bytes| == size)
    && (match r.sha256 case None => true case Some(digest) => sha(bytes) == Lower(digest))
  }

  predicate AllEvidenceMatches(refs: seq<Reference>, root: Files, below: RelPath, sha: Content -> string) {
    forall i :: 0 <= i < |refs| ==> EvidenceMatches(refs[i], root, below, sha)
  }

  datatype Store = Store(experiments: map<string, Experiment>, benchmarks: map<string, Benchmark>)

  predicate RecordsMatch(c: Case, store: Store) {
    && c.experimentId in store.experiments && store.experiments[c.experimentId].experimentId == c.experimentId
    && forall i :: 0 <= i < |c.benchmarkIds| ==>
         c.benchmarkIds[i] in store.benchmarks
         && store.benchmarks[c.benchmarkIds[i]].benchmarkId == c.benchmarkIds[i]
  }

  function BenchmarksOf(c: Case, store: Store): seq<Benchmark>
    requires RecordsMatch(c, store)
  {
    seq(|c.benchmarkIds|, i requires 0 <= i < |c.benchmarkIds| => store.benchmarks[c.benchmarkIds[i]])
  }

  // ---------------------------------------------------------------- writing

  datatype Write = Write(path: RelPath, content: Content)

  predicate ProperPrefix(p: RelPath, q: RelPath) { |p| < |q| && q[..|p|] == p }

  /** A file cannot be where a directory is, nor a directory where a file is. */
  predicate CanWrite(files: Files, path: RelPath) {
    forall p :: p in files ==> !ProperPrefix(p, path) && !ProperPrefix(path, p)
  }

  function Written(writes: seq<Write>): Files {
    if writes == [] then map[]
    else
      var last := writes[|writes| - 1];
      Written(writes[..|writes| - 1])[last.path := last.content]
  }

  predicate AllWritable(writes: seq<Write>) {
    writes == []
    || (AllWritable(writes[..|writes| - 1])
        && CanWrite(Written(writes[..|writes| - 1]), writes[|writes| - 1].path))
  }

  function FileOf(w: Write, sha: Content -> string): BundleFile { BundleFile(w.path, sha(w.content), |w.content|) }

  function RecordWrites(c: Case, store: Store, codec: Codec): seq<Write>
    requires RecordsMatch(c, store)
  {
    var benchmarks := BenchmarksOf(c, store);
    [Write(CASE_PATH, codec.printCase(c)),
     Write(EXPERIMENT_PATH, codec.printExperiment(store.experiments[c.experimentId]))]
    + seq(|benchmarks|, i requires 0 <= i < |benchmarks| =>
            Write(BenchmarkPath(benchmarks[i].benchmarkId), codec.printBenchmark(benchmarks[i])))
  }

  function EvidenceWrites(refs: seq<Reference>, root: Files, sha: Content -> string): seq<Write>
    requires AllEvidenceMatches(refs, root, [], sha)
  {
    seq(|refs|, i requires 0 <= i < |refs| =>
      assert EvidenceMatches(refs[i], root, [], sha);
      Write(EvidencePath(refs[i]), root[[] + Parts(refs[i].path, "")]))
  }

  function DataWrites(c: Case, store: Store, root: Files, codec: Codec, sha: Content -> string): seq<Write>
    requires RecordsMatch(c, store) && AllEvidenceMatches(c.evidence, root, [], sha)
  {
    RecordWrites(c, store, codec) + EvidenceWrites(c.evidence, root, sha)
  }

  function ManifestFor(c: Case, writes: seq<Write>, provenance: string, sha: Content -> string): Manifest
    requires |writes| == 2 + |c.benchmarkIds| + |c.evidence|
  {
    var n := |c.benchmarkIds|;
    Manifest(provenance, FileOf(writes[0], sha), FileOf(writes[1], sha),
             seq(n, i requires 0 <= i < n => BenchmarkFile(c.benchmarkIds[i], FileOf(writes[2 + i], sha))),
             seq(|c.evidence|, i requires 0 <= i < |c.evidence| =>
                   EvidenceFile(c.evidence[i], FileOf(writes[2 + n + i], sha))))
  }

  // ---------------------------------------------------------------- paths that stay apart

  /** Neither is the other, nor a directory of the other. */
  predicate ApartPaths(p: RelPath, q: RelPath) { !(p <= q) && !(q <= p) }

  ghost predicate Apart(writes: seq<Write>) {
    forall i, j :: 0 <= i < j < |writes| ==> ApartPaths(writes[i].path, writes[j].path)
  }

  ghost predicate EvidenceApart(refs: seq<Reference>) {
    forall i, j :: 0 <= i < j < |refs| ==> ApartPaths(Parts(refs[i].path, ""), Parts(refs[j].path, ""))
  }

  /** The directory holds the writes and nothing else. */
  ghost predicate HoldsExactly(files: Files, writes: seq<Write>) {
    && (forall i :: 0 <= i < |writes| ==> writes[i].path in files && files[writes[i].path] == writes[i].content)
    && (forall p :: p in files ==> exists i :: 0 <= i < |writes| && writes[i].path == p)
  }

  lemma {:induction false} WrittenPaths(writes: seq<Write>)
    ensures forall i :: 0 <= i < |writes| ==> writes[i].path in Written(writes)
    ensures forall p :: p in Written(writes) ==> exists i :: 0 <= i < |writes| && writes[i].path == p
  {
    if writes != [] {
      var n := |writes| - 1;
      WrittenPaths(writes[..n]);
      forall p | p in Written(writes) ensures exists i :: 0 <= i < |writes| && writes[i].path == p {
        if p in Written(writes[..n]) {
          var i :| 0 <= i < n && writes[..n][i].path == p;
          assert writes[i].path == p;
        } else {
          assert writes[n].path == p;
        }
      }
    }
  }

  lemma {:induction false} ApartWritesSucceed(writes: seq<Write>)
    requires Apart(writes)
    ensures AllWritable(writes)
  {
    if writes != [] {
      var n := |writes| - 1;
      ApartWritesSucceed(writes[..n]);
      WrittenPaths(writes[..n]);
      forall p | p in Written(writes[..n]) ensures !ProperPrefix(p, writes[n].path) && !ProperPrefix(writes[n].path, p) {
        var i :| 0 <= i < n && writes[..n][i].path == p;
        assert ApartPaths(writes[i].path, writes[n].path);
        PrefixCases(p, writes[n].path);
      }
    }
  }

  lemma {:induction false} ApartWritesKeepContent(writes: seq<Write>, i: nat)
    requires Apart(writes) && i < |writes|
    ensures writes[i].path in Written(writes) && Written(writes)[writes[i].path] == writes[i].content
    decreases |writes|
  {
    var n := |writes| - 1;
    if i < n {
      ApartWritesKeepContent(writes[..n], i);
      assert ApartPaths(writes[i].path, writes[n].path);
    }
  }

  /** Writes that stay apart never meet: each succeeds, and none clobbers another. */
  lemma ApartWritesAreKept(writes: seq<Write>)
    requires Apart(writes)
    ensures AllWritable(writes) && HoldsExactly(Written(writes), writes)
  {
    ApartWritesSucceed(writes);
    WrittenPaths(writes);
    forall i | 0 <= i < |writes|
      ensures writes[i].path in Written(writes) && Written(writes)[writes[i].path] == writes[i].content
    {
      ApartWritesKeepContent(writes, i);
    }
  }

  lemma ApartGrows(writes: seq<Write>)
    requires writes != [] && Apart(writes[..|writes| - 1])
    requires forall i :: 0 <= i < |writes| - 1 ==> ApartPaths(writes[i].path, writes[|writes| - 1].path)
    ensures Apart(writes)
  {
    forall i, j | 0 <= i < j < |writes| - 1 ensures ApartPaths(writes[i].path, writes[j].path) {
      assert writes[..|writes| - 1][i] == writes[i] && writes[..|writes| - 1][j] == writes[j];
    }
  }

  /** Conversely, when every write succeeds and the paths are all different, they were apart. */
  lemma {:induction false} KeptWritesAreApart(writes: seq<Write>)
    requires AllWritable(writes)
    requires forall i, j :: 0 <= i < j < |writes| ==> writes[i].path != writes[j].path
    ensures Apart(writes)
  {
    if writes != [] {
      var n := |writes| - 1;
      forall i, j | 0 <= i < j < n ensures writes[..n][i].path != writes[..n][j].path {
        assert writes[..n][i] == writes[i] && writes[..n][j] == writes[j];
      }
      KeptWritesAreApart(writes[..n]);
      forall i | 0 <= i < n ensures ApartPaths(writes[i].path, writes[n].path) {
        KeptWriteIsApart(writes, i);
      }
      ApartGrows(writes);
    }
  }

  lemma KeptWriteIsApart(writes: seq<Write>, i: nat)
    requires writes != [] && i < |writes| - 1 && AllWritable(writes)
    requires writes[i].path != writes[|writes| - 1].path
    ensures ApartPaths(writes[i].path, writes[|writes| - 1].path)
  {
    var before := writes[..|writes| - 1];
    WrittenPaths(before);
    assert before[i].path in Written(before);
    PrefixCases(writes[i].path, writes[|writes| - 1].path);
  }

  lemma PrefixCases(p: RelPath, q: RelPath)
    ensures ApartPaths(p, q) <==> p != q && !ProperPrefix(p, q) && !ProperPrefix(q, p)
  {
  }

  lemma EvidencePathsApart(a: Reference, b: Reference)
    ensures ApartPaths(EvidencePath(a), EvidencePath(b)) <==> ApartPaths(Parts(a.path, ""), Parts(b.path, ""))
  {
    SamePrefix(Parts(a.path, ""), Parts(b.path, ""));
  }

  lemma EvidenceWritesApart(refs: seq<Reference>, root: Files, sha: Content -> string)
    requires AllEvidenceMatches(refs, root, [], sha)
    ensures Apart(EvidenceWrites(refs, root, sha)) <==> EvidenceApart(refs)
  {
    var writes := EvidenceWrites(refs, root, sha);
    forall i, j | 0 <= i < j < |refs|
      ensures ApartPaths(writes[i].path, writes[j].path) <==> ApartPaths(Parts(refs[i].path, ""), Parts(refs[j].path, ""))
    {
      EvidencePathsApart(refs[i], refs[j]);
    }
  }

  lemma ApartSplit(records: seq<Write>, rest: seq<Write>)
    requires forall i, j :: 0 <= i < j < |records + rest| && i < |records| ==>
               ApartPaths((records + rest)[i].path, (records + rest)[j].path)
    ensures Apart(records + rest) <==> Apart(rest)
  {
    var writes, n := records + rest, |records|;
    if Apart(rest) {
      forall i, j | 0 <= i < j < |writes| ensures ApartPaths(writes[i].path, writes[j].path) {
        if n <= i {
          assert writes[i] == rest[i - n] && writes[j] == rest[j - n];
        }
      }
    }
    if Apart(writes) {
      forall i, j | 0 <= i < j < |rest| ensures ApartPaths(rest[i].path, rest[j].path) {
        assert writes[n + i] == rest[i] && writes[n + j] == rest[j];
      }
    }
  }

  /** Records keep out of each other's way and out of the evidence; evidence files are apart exactly when
      their references are. */
  lemma RolesApart(c: Case, store: Store, root: Files, codec: Codec, sha: Content -> string)
    requires CaseOk(c) && RecordsMatch(c, store) && AllEvidenceMatches(c.evidence, root, [], sha)
    ensures Apart(DataWrites(c, store, root, codec, sha)) <==> EvidenceApart(c.evidence)
  {
    var records, evidence := RecordWrites(c, store, codec), EvidenceWrites(c.evidence, root, sha);
    var writes := records + evidence;
    forall i, j | 0 <= i < j < |writes| && i < |records|
      ensures ApartPaths(writes[i].path, writes[j].path)
    {
      RecordPathsApart(c, store, root, codec, sha, i, j);
    }
    ApartSplit(records, evidence);
    EvidenceWritesApart(c.evidence, root, sha);
  }

  /** The manifest itself never meets the files it describes. */
  lemma ManifestApart(c: Case, store: Store, root: Files, codec: Codec, sha: Content -> string, manifest: Content)
    requires RecordsMatch(c, store) && AllEvidenceMatches(c.evidence, root, [], sha)
    ensures
      var writes := DataWrites(c, store, root, codec, sha);
      Apart(writes) ==> Apart(writes + [Write(BUNDLE_PATH, manifest)])
  {
    var writes := DataWrites(c, store, root, codec, sha);
    forall i | 0 <= i < |writes| ensures ApartPaths(writes[i].path, BUNDLE_PATH) {
      FirstParts(c, store, root, codec, sha, i);
    }
  }

  lemma SamePrefix(p: RelPath, q: RelPath)
    ensures ["evidence"] + p <= ["evidence"] + q <==> p <= q
    ensures ["evidence"] + q <= ["evidence"] + p <==> q <= p
  {
    assert (["evidence"] + p)[1..] == p && (["evidence"] + q)[1..] == q;
    if p <= q {
      assert forall k :: 0 <= k < 1 + |p| ==> (["evidence"] + p)[k] == (["evidence"] + q)[k];
    }
    if ["evidence"] + p <= ["evidence"] + q {
      assert forall k :: 0 <= k < |p| ==> p[k] == (["evidence"] + p)[k + 1] == (["evidence"] + q)[k + 1] == q[k];
    }
    if q <= p {
      assert forall k :: 0 <= k < 1 + |q| ==> (["evidence"] + q)[k] == (["evidence"] + p)[k];
    }
    if ["evidence"] + q <= ["evidence"] + p {
      assert forall k :: 0 <= k < |q| ==> q[k] == (["evidence"] + q)[k + 1] == (["evidence"] + p)[k + 1] == p[k];
    }
  }

  /** The first part of a path tells its role. */
  lemma FirstParts(c: Case, store: Store, root: Files, codec: Codec, sha: Content -> string, i: nat)
    requires RecordsMatch(c, store) && AllEvidenceMatches(c.evidence, root, [], sha)
    requires i < |DataWrites(c, store, root, codec, sha)|
    ensures
      var path := DataWrites(c, store, root, codec, sha)[i].path;
      && path != [] && ApartPaths(path, BUNDLE_PATH)
      && path[0] == (if i == 0 then "case.json" else if i < 2 + |c.benchmarkIds| then "records" else "evidence")
  {
    var path := DataWrites(c, store, root, codec, sha)[i].path;
    assert "case.json"[0] != "bundle.json"[0] && "records"[0] != "bundle.json"[0] && "evidence"[0] != "bundle.json"[0];
    assert path[0] != BUNDLE_PATH[0];
  }

  lemma JsonNameInjective(a: string, b: string)
    ensures a + ".json" == b + ".json" ==> a == b
  {
    assert a == (a + ".json")[..|a + ".json"| - 5] && b == (b + ".json")[..|b + ".json"| - 5];
  }

  lemma DifferentAt(p: RelPath, q: RelPath, k: nat)
    requires k < |p| && k < |q| && p[k] != q[k]
    ensures ApartPaths(p, q)
  {
  }

  lemma RolesDiffer()
    ensures "case.json" != "records" && "case.json" != "evidence" && "records" != "evidence"
    ensures "experiment.json" != "benchmarks"
  {
  }

  lemma ExperimentApart(id: string)
    ensures ApartPaths(EXPERIMENT_PATH, BenchmarkPath(id))
  {
    RolesDiffer();
    DifferentAt(EXPERIMENT_PATH, BenchmarkPath(id), 1);
  }

  lemma BenchmarkPathsApart(a: string, b: string)
    requires a != b
    ensures ApartPaths(BenchmarkPath(a), BenchmarkPath(b))
  {
    JsonNameInjective(a, b);
    DifferentAt(BenchmarkPath(a), BenchmarkPath(b), 2);
  }

  lemma BenchmarkWriteAt(c: Case, store: Store, codec: Codec, k: nat)
    requires RecordsMatch(c, store) && k < |c.benchmarkIds|
    ensures
      RecordWrites(c, store, codec)[2 + k]
      == Write(BenchmarkPath(c.benchmarkIds[k]), codec.printBenchmark(BenchmarksOf(c, store)[k]))
  {
  }

  lemma RecordWritesApart(c: Case, store: Store, codec: Codec, i: nat, j: nat)
    requires CaseOk(c) && RecordsMatch(c, store) && i < j < |RecordWrites(c, store, codec)|
    ensures ApartPaths(RecordWrites(c, store, codec)[i].path, RecordWrites(c, store, codec)[j].path)
  {
    RolesDiffer();
    if j == 1 {
      DifferentAt(CASE_PATH, EXPERIMENT_PATH, 0);
    } else {
      var id := c.benchmarkIds[j - 2];
      BenchmarkWriteAt(c, store, codec, j - 2);
      if i == 0 {
        DifferentAt(CASE_PATH, BenchmarkPath(id), 0);
      } else if i == 1 {
        ExperimentApart(id);
      } else {
        BenchmarkWriteAt(c, store, codec, i - 2);
        BenchmarkPathsApart(c.benchmarkIds[i - 2], id);
      }
    }
  }

  lemma RecordPathsApart(c: Case, store: Store, root: Files, codec: Codec, sha: Content -> string, i: nat, j: nat)
    requires CaseOk(c) && RecordsMatch(c, store) && AllEvidenceMatches(c.evidence, root, [], sha)
    requires i < j < |DataWrites(c, store, root, codec, sha)| && i < 2 + |c.benchmarkIds|
    ensures
      var writes := DataWrites(c, store, root, codec, sha);
      ApartPaths(writes[i].path, writes[j].path)
  {
    if j < 2 + |c.benchmarkIds| {
      RecordWritesApart(c, store, codec, i, j);
    } else {
      FirstParts(c, store, root, codec, sha, i);
      FirstParts(c, store, root, codec, sha, j);
      RolesDiffer();
      DifferentAt(DataWrites(c, store, root, codec, sha)[i].path, DataWrites(c, store, root, codec, sha)[j].path, 0);
    }
  }

  // ---------------------------------------------------------------- export

  /** Everything an export needs of its inputs: the records it names, evidence as it was referenced, and no
      two evidence paths in each other's way. */
  ghost predicate Exportable(c: Case, store: Store, root: Files, sha: Content -> string) {
    RecordsMatch(c, store) && AllEvidenceMatches(c.evidence, root, [], sha) && EvidenceApart(c.evidence)
  }

  /** The same, input by input. */
  lemma ExportableIff(c: Case, store: Store, root: Files, sha: Content -> string)
    ensures Exportable(c, store, root, sha) <==>
      && c.experimentId in store.experiments && store.experiments[c.experimentId].experimentId == c.experimentId
      && (forall id :: id in c.benchmarkIds ==> id in store.benchmarks && store.benchmarks[id].benchmarkId == id)
      && (forall r :: r in c.evidence ==> Parts(r.path, "") in root && AsReferenced(r, root[Parts(r.path, "")], sha))
      && (forall i, j :: 0 <= i < |c.evidence| && 0 <= j < |c.evidence| && i != j ==>
            !(Parts(c.evidence[i].path, "") <= Parts(c.evidence[j].path, "")))
  {
    forall r | r in c.evidence
      ensures EvidenceMatches(r, root, [], sha)
         <==> Parts(r.path, "") in root && AsReferenced(r, root[Parts(r.path, "")], sha)
    {
      assert [] + Parts(r.path, "") == Parts(r.path, "");
    }
    forall i | 0 <= i < |c.evidence| ensures c.evidence[i] in c.evidence {
    }
    forall i | 0 <= i < |c.benchmarkIds| ensures c.benchmarkIds[i] in c.benchmarkIds {
    }
  }

  ghost function ExportedManifest(c: Case, store: Store, root: Files, codec: Codec, sha: Content -> string,
                                  provenance: string): Manifest
    requires Exportable(c, store, root, sha)
  {
    ManifestFor(c, DataWrites(c, store, root, codec, sha), provenance, sha)
  }

  ghost function ExportedFiles(c: Case, store: Store, root: Files, codec: Codec, sha: Content -> string,
                               provenance: string): Files
    requires Exportable(c, store, root, sha)
  {
    var manifest := ExportedManifest(c, store, root, codec, sha, provenance);
    Written(DataWrites(c, store, root, codec, sha) + [Write(BUNDLE_PATH, codec.printManifest(manifest))])
  }

  lemma PathsOfManifest(c: Case, writes: seq<Write>, provenance: string, sha: Content -> string)
    requires |writes| == 2 + |c.benchmarkIds| + |c.evidence|
    ensures PathsOf(ManifestFor(c, writes, provenance, sha)) == seq(|writes|, i requires 0 <= i < |writes| => writes[i].path)
  {
    var m := ManifestFor(c, writes, provenance, sha);
    var n := |c.benchmarkIds|;
    forall i | 0 <= i < |writes| ensures PathsOf(m)[i] == writes[i].path {
      if 2 <= i < 2 + n {
        assert PathsOf(m)[i] == m.benchmarkFiles[i - 2].file.path == writes[2 + (i - 2)].path;
      } else if 2 + n <= i {
        var k := i - 2 - n;
        assert m.evidenceFiles[k] == EvidenceFile(c.evidence[k], FileOf(writes[2 + n + k], sha));
        assert PathsOf(m)[i] == m.evidenceFiles[k].file.path;
      }
    }
  }

  /** The manifest's validator refuses exactly repeated paths. */
  lemma ManifestOkIff(c: Case, writes: seq<Write>, provenance: string, sha: Content -> string)
    requires CaseOk(c) && |writes| == 2 + |c.benchmarkIds| + |c.evidence|
    ensures ManifestOk(ManifestFor(c, writes, provenance, sha))
       <==> forall i, j :: 0 <= i < j < |writes| ==> writes[i].path != writes[j].path
  {
    PathsOfManifest(c, writes, provenance, sha);
    var m := ManifestFor(c, writes, provenance, sha);
    var paths := seq(|writes|, i requires 0 <= i < |writes| => writes[i].path);
    assert forall i :: 0 <= i < |writes| ==> paths[i] == writes[i].path;
    assert seq(|m.benchmarkFiles|, i requires 0 <= i < |m.benchmarkFiles| => m.benchmarkFiles[i].benchmarkId) == c.benchmarkIds;
  }

  /** The three places an export can fail besides its inputs: preparing, the n-th write, the rename. */
  datatype Faults = Faults(prepareFails: bool, failingWrite: Option<nat>, renameFails: bool, leftover: Option<Files>)

  class ExportSite {
    var target: Option<Files>
    var temporary: Option<Files>

    constructor (target: Option<Files>)
      ensures this.target == target && temporary == None
    {
      this.target := target;
      temporary := None;
    }

    /** Writes one file into the temporary directory and describes it. */
    method WriteFile(ghost done: seq<Write>, w: Write, fails: bool,
                     sha: Content -> string) returns (r: Result<BundleFile, Error>)
      requires temporary == Some(Written(done))
      modifies this`temporary
      ensures r.Ok? <==> !fails && CanWrite(Written(done), w.path)
      ensures r.Ok? ==> r.value == FileOf(w, sha) && temporary == Some(Written(done + [w]))
    {
      if fails || !CanWrite(temporary.value, w.path) {
        return Err(IoError);
      }
      temporary := Some(temporary.value[w.path := w.content]);
      assert (done + [w])[..|done|] == done;
      r := Ok(BundleFile(w.path, sha(temporary.value[w.path]), |temporary.value[w.path]|));
    }

    /** The files of the plan, one after the other, until one fails. */
    method WriteFiles(plan: seq<Write>, faults: Faults, sha: Content -> string) returns (ok: bool,
                      files: seq<BundleFile>)
      requires temporary == Some(map[])
      modifies this`temporary
      ensures ok <==> AllWritable(plan) && !FaultIn(faults, |plan|)
      ensures ok ==> temporary == Some(Written(plan))
      ensures ok ==> Describe(files, plan, sha)
    {
      files := [];
      for i := 0 to |plan|
        invariant temporary == Some(Written(plan[..i])) && AllWritable(plan[..i]) && !FaultIn(faults, i)
        invariant Describe(files, plan[..i], sha)
      {
        NextWrite(plan, i);
        DescribeNext(files, plan[..i], plan[i], sha);
        var r := WriteFile(plan[..i], plan[i], faults.failingWrite == Some(i), sha);
        if r.Err? {
          if faults.failingWrite != Some(i) {
            UnwritablePrefix(plan, i + 1);
          }
          return false, files;
        }
        files := files + [r.value];
      }
      assert plan[..|plan|] == plan;
      ok := true;
    }

    /** Fills the temporary directory with the whole bundle, manifest last. */
    method Stage(c: Case, store: Store, root: Files, provenance: string, codec: Codec, sha: Content -> string,
                 faults: Faults)
      returns (r: Result<(), Error>)
      requires CaseOk(c) && RecordsMatch(c, store) && AllEvidenceMatches(c.evidence, root, [], sha)
      requires temporary == Some(map[])
      modifies this`temporary
      ensures r.Ok? ==>
        EvidenceApart(c.evidence) && temporary == Some(ExportedFiles(c, store, root, codec, sha, provenance))
      ensures EvidenceApart(c.evidence) && faults.failingWrite == None ==> r.Ok?
    {
      var plan := DataWrites(c, store, root, codec, sha);
      PlanIsSound(c, store, root, codec, sha, provenance);
      var ok, files := WriteFiles(plan, faults, sha);
      if !ok {
        return Err(IoError);
      }
      if !AllEvidenceMatches(c.evidence, temporary.value, ["evidence"], sha) {
        return Err(BundleError);
      }
      var manifest := ManifestFrom(c, provenance, files);
      ManifestFromIs(c, plan, files, provenance, sha);
      if !ManifestOk(manifest) {
        return Err(Invalid);
      }
      var last := Write(BUNDLE_PATH, codec.printManifest(manifest));
      ManifestIsWritable(c, store, root, codec, sha, last.content);
      var written := WriteFile(plan, last, faults.failingWrite == Some(|plan|), sha);
      if written.Err? {
        return Err(IoError);
      }
      r := Ok(());
    }

    /** Writes a new bundle, all of it or nothing: only the last step, a rename, touches the destination. */
    method Export(c: Case, store: Store, root: Files, provenance: string, codec: Codec, sha: Content -> string,
                  faults: Faults)
      returns (r: Result<(), Error>)
      requires CaseOk(c)
      modifies this
      ensures r.Err? ==> target == old(target) && !r.error.IoError?
      ensures r.Ok? ==>
        && old(target) == None && Exportable(c, store, root, sha)
        && target == Some(ExportedFiles(c, store, root, codec, sha, provenance))
      ensures old(target) == None && Exportable(c, store, root, sha) && NoFault(faults) ==> r.Ok?
    {
      if target.Some? || faults.prepareFails {
        return Err(BundleError);
      }
      if !RecordsMatch(c, store) || !AllEvidenceMatches(c.evidence, root, [], sha) {
        return Err(BundleError);
      }
      temporary := Some(map[]);
      r := Stage(c, store, root, provenance, codec, sha, faults);
      if r.Ok? && faults.renameFails {
        r := Err(IoError);
      }
      if r.Err? {
        temporary := faults.leftover;
        if r.error.IoError? {
          r := Err(BundleError);
        }
        return;
      }
      target, temporary := temporary, None;
    }
  }

  predicate NoFault(faults: Faults) {
    !faults.prepareFails && faults.failingWrite == None && !faults.renameFails
  }

  /** When the evidence is apart every check of the staging passes; when the checks pass it was apart. */
  lemma PlanIsSound(c: Case, store: Store, root: Files, codec: Codec, sha: Content -> string, provenance: string)
    requires CaseOk(c) && RecordsMatch(c, store) && AllEvidenceMatches(c.evidence, root, [], sha)
    ensures
      var plan := DataWrites(c, store, root, codec, sha);
      && (EvidenceApart(c.evidence) ==>
            && AllWritable(plan)
            && AllEvidenceMatches(c.evidence, Written(plan), ["evidence"], sha)
            && ManifestOk(ManifestFor(c, plan, provenance, sha)))
      && (AllWritable(plan) && ManifestOk(ManifestFor(c, plan, provenance, sha)) ==> EvidenceApart(c.evidence))
  {
    var plan := DataWrites(c, store, root, codec, sha);
    RolesApart(c, store, root, codec, sha);
    ManifestOkIff(c, plan, provenance, sha);
    if EvidenceApart(c.evidence) {
      ApartWritesAreKept(plan);
      CopiesMatch(c, store, root, codec, sha);
      forall i, j | 0 <= i < j < |plan| ensures plan[i].path != plan[j].path {
        assert ApartPaths(plan[i].path, plan[j].path);
      }
    } else if AllWritable(plan) && ManifestOk(ManifestFor(c, plan, provenance, sha)) {
      KeptWritesAreApart(plan);
    }
  }

  lemma ManifestIsWritable(c: Case, store: Store, root: Files, codec: Codec, sha: Content -> string, manifest: Content)
    requires CaseOk(c) && RecordsMatch(c, store) && AllEvidenceMatches(c.evidence, root, [], sha)
    requires EvidenceApart(c.evidence)
    ensures CanWrite(Written(DataWrites(c, store, root, codec, sha)), BUNDLE_PATH)
  {
    var plan := DataWrites(c, store, root, codec, sha);
    var all := plan + [Write(BUNDLE_PATH, manifest)];
    RolesApart(c, store, root, codec, sha);
    ManifestApart(c, store, root, codec, sha, manifest);
    ApartWritesSucceed(all);
    assert all[..|plan|] == plan;
  }

  function ManifestFrom(c: Case, provenance: string, files: seq<BundleFile>): Manifest
    requires |files| == 2 + |c.benchmarkIds| + |c.evidence|
  {
    var n := |c.benchmarkIds|;
    Manifest(provenance, files[0], files[1],
             seq(n, i requires 0 <= i < n => BenchmarkFile(c.benchmarkIds[i], files[2 + i])),
             seq(|c.evidence|, i requires 0 <= i < |c.evidence| => EvidenceFile(c.evidence[i], files[2 + n + i])))
  }

  lemma ManifestFromIs(c: Case, plan: seq<Write>, files: seq<BundleFile>, provenance: string, sha: Content -> string)
    requires |plan| == |files| == 2 + |c.benchmarkIds| + |c.evidence|
    requires Describe(files, plan, sha)
    ensures ManifestFrom(c, provenance, files) == ManifestFor(c, plan, provenance, sha)
  {
  }

  lemma CopyMatches(r: Reference, root: Files, copies: Files, w: Write, sha: Content -> string)
    requires EvidenceMatches(r, root, [], sha)
    requires Parts(r.path, "") in root && w == Write(EvidencePath(r), root[Parts(r.path, "")])
    requires w.path in copies && copies[w.path] == w.content
    ensures EvidenceMatches(r, copies, ["evidence"], sha)
  {
    assert [] + Parts(r.path, "") == Parts(r.path, "");
  }

  lemma CopyHolds(c: Case, store: Store, root: Files, codec: Codec, sha: Content -> string, copies: Files, i: nat)
    requires RecordsMatch(c, store) && AllEvidenceMatches(c.evidence, root, [], sha) && i < |c.evidence|
    requires HoldsExactly(copies, DataWrites(c, store, root, codec, sha))
    ensures EvidenceMatches(c.evidence[i], copies, ["evidence"], sha)
  {
    EvidenceWriteAt(c, store, root, codec, sha, i);
    CopyMatches(c.evidence[i], root, copies, DataWrites(c, store, root, codec, sha)[2 + |c.benchmarkIds| + i], sha);
  }

  /** The copies made in the temporary directory still match their references. */
  lemma CopiesMatch(c: Case, store: Store, root: Files, codec: Codec, sha: Content -> string)
    requires RecordsMatch(c, store) && AllEvidenceMatches(c.evidence, root, [], sha)
    requires HoldsExactly(Written(DataWrites(c, store, root, codec, sha)), DataWrites(c, store, root, codec, sha))
    ensures AllEvidenceMatches(c.evidence, Written(DataWrites(c, store, root, codec, sha)), ["evidence"], sha)
  {
    var copies := Written(DataWrites(c, store, root, codec, sha));
    forall i | 0 <= i < |c.evidence| ensures EvidenceMatches(c.evidence[i], copies, ["evidence"], sha) {
      CopyHolds(c, store, root, codec, sha, copies, i);
    }
  }

  /** One description for each write, in order. */
  predicate Describe(files: seq<BundleFile>, writes: seq<Write>, sha: Content -> string) {
    |files| == |writes| && forall k :: 0 <= k < |writes| ==> files[k] == FileOf(writes[k], sha)
  }

  lemma DescribeNext(files: seq<BundleFile>, writes: seq<Write>, w: Write, sha: Content -> string)
    requires Describe(files, writes, sha)
    ensures Describe(files + [FileOf(w, sha)], writes + [w], sha)
  {
  }

  /** One of the first n writes fails. */
  predicate FaultIn(faults: Faults, n: nat) {
    faults.failingWrite.Some? && faults.failingWrite.value < n
  }

  lemma NextWrite(plan: seq<Write>, i: nat)
    requires i < |plan|
    ensures plan[..i] + [plan[i]] == plan[..i + 1]
    ensures AllWritable(plan[..i + 1]) <==> AllWritable(plan[..i]) && CanWrite(Written(plan[..i]), plan[i].path)
  {
    assert plan[..i + 1][..i] == plan[..i];
  }

  lemma {:induction false} UnwritablePrefix(writes: seq<Write>, n: nat)
    requires n <= |writes| && !AllWritable(writes[..n])
    ensures !AllWritable(writes)
    decreases |writes|
  {
    if n < |writes| {
      assert writes[..|writes| - 1][..n] == writes[..n];
      UnwritablePrefix(writes[..|writes| - 1], n);
    } else {
      assert writes[..n] == writes;
    }
  }

  // ---------------------------------------------------------------- load

  datatype Loaded = Loaded(manifest: Manifest, case_: Case, experiment: Experiment, benchmarks: seq<Benchmark>)

  predicate FileVerifies(files: Files, f: BundleFile, sha: Content -> string) {
    f.path in files && |files[f.path]| == f.sizeBytes && sha(files[f.path]) == Lower(f.sha256)
  }

  predicate Related(l: Loaded) {
    && l.experiment.experimentId == l.case_.experimentId
    && |l.benchmarks| == |l.manifest.benchmarkFiles| == |l.case_.benchmarkIds|
    && (forall i :: 0 <= i < |l.benchmarks| ==>
          l.benchmarks[i].benchmarkId == l.case_.benchmarkIds[i] == l.manifest.benchmarkFiles[i].benchmarkId)
    && |l.manifest.evidenceFiles| == |l.case_.evidence|
    && (forall i :: 0 <= i < |l.case_.evidence| ==> l.manifest.evidenceFiles[i].reference == l.case_.evidence[i])
  }

  /** The manifest and the records parse to this, and every byte they were read from has its declared
      digest and size. */
  ghost predicate SameContent(files: Files, codec: Codec, sha: Content -> string, l: Loaded) {
    && BUNDLE_PATH in files && codec.parseManifest(files[BUNDLE_PATH]) == Some(l.manifest)
    && FileVerifies(files, l.manifest.caseFile, sha)
    && codec.parseCase(files[l.manifest.caseFile.path]) == Some(l.case_)
    && FileVerifies(files, l.manifest.experimentFile, sha)
    && codec.parseExperiment(files[l.manifest.experimentFile.path]) == Some(l.experiment)
    && |l.benchmarks| == |l.manifest.benchmarkFiles|
    && (forall i :: 0 <= i < |l.benchmarks| ==>
          FileVerifies(files, l.manifest.benchmarkFiles[i].file, sha)
          && codec.parseBenchmark(files[l.manifest.benchmarkFiles[i].file.path]) == Some(l.benchmarks[i]))
  }

  /** The directory is a bundle of exactly this content: the records agree with each other, and the
      evidence too has its declared digests and sizes. */
  ghost predicate LoadsAs(files: Files, codec: Codec, sha: Content -> string, l: Loaded) {
    && SameContent(files, codec, sha, l)
    && Related(l)
    && forall i :: 0 <= i < |l.manifest.evidenceFiles| ==> FileVerifies(files, l.manifest.evidenceFiles[i].file, sha)
  }

  method LoadBenchmarks(files: Files, declared: seq<BenchmarkFile>, codec: Codec, sha: Content -> string)
    returns (r: Result<seq<Benchmark>, Error>)
    ensures r.Ok? ==>
      && |r.value| == |declared|
      && forall i :: 0 <= i < |declared| ==>
           FileVerifies(files, declared[i].file, sha)
           && codec.parseBenchmark(files[declared[i].file.path]) == Some(r.value[i])
    ensures r.Err? ==>
      && r.error == BundleError
      && (exists i :: 0 <= i < |declared| &&
            !(FileVerifies(files, declared[i].file, sha) && codec.parseBenchmark(files[declared[i].file.path]).Some?))
  {
    var benchmarks := [];
    for i := 0 to |declared|
      invariant |benchmarks| == i
      invariant forall k :: 0 <= k < i ==>
                  FileVerifies(files, declared[k].file, sha)
                  && codec.parseBenchmark(files[declared[k].file.path]) == Some(benchmarks[k])
    {
      if !FileVerifies(files, declared[i].file, sha) {
        return Err(BundleError);
      }
      var parsed := codec.parseBenchmark(files[declared[i].file.path]);
      if parsed.None? {
        return Err(BundleError);
      }
      benchmarks := benchmarks + [parsed.value];
    }
    r := Ok(benchmarks);
  }

  /** Accepts exactly the directories that are bundles, and says of what. */
  method Load(files: Files, codec: Codec, sha: Content -> string) returns (r: Result<Loaded, Error>)
    ensures r.Ok? ==> LoadsAs(files, codec, sha, r.value)
    ensures r.Err? ==> r.error == BundleError && !exists l :: LoadsAs(files, codec, sha, l)
  {
    if BUNDLE_PATH !in files {
      return Err(BundleError);
    }
    var manifest := codec.parseManifest(files[BUNDLE_PATH]);
    if manifest.None? {
      return Err(BundleError);
    }
    var m := manifest.value;
    if !FileVerifies(files, m.caseFile, sha) {
      return Err(BundleError);
    }
    var case_ := codec.parseCase(files[m.caseFile.path]);
    if case_.None? {
      return Err(BundleError);
    }
    if !FileVerifies(files, m.experimentFile, sha) {
      return Err(BundleError);
    }
    var experiment := codec.parseExperiment(files[m.experimentFile.path]);
    if experiment.None? {
      return Err(BundleError);
    }
    var benchmarks := LoadBenchmarks(files, m.benchmarkFiles, codec, sha);
    if benchmarks.Err? {
      return Err(benchmarks.error);
    }
    var l := Loaded(m, case_.value, experiment.value, benchmarks.value);
    if !Related(l) {
      NothingElseLoads(files, codec, sha, l);
      return Err(BundleError);
    }
    for i := 0 to |m.evidenceFiles|
      invariant forall k :: 0 <= k < i ==> FileVerifies(files, m.evidenceFiles[k].file, sha)
    {
      if !FileVerifies(files, m.evidenceFiles[i].file, sha) {
        return Err(BundleError);
      }
    }
    r := Ok(l);
  }

  lemma NothingElseLoads(files: Files, codec: Codec, sha: Content -> string, l: Loaded)
    requires SameContent(files, codec, sha, l) && !Related(l)
    ensures !exists other :: LoadsAs(files, codec, sha, other)
  {
  }

  lemma OnlyOneContent(files: Files, codec: Codec, sha: Content -> string, l: Loaded, other: Loaded)
    requires SameContent(files, codec, sha, l) && SameContent(files, codec, sha, other)
    ensures l == other
  {
  }

  // ---------------------------------------------------------------- round trip

  lemma WrittenFileVerifies(files: Files, w: Write, sha: Content -> string)
    requires IsHash(sha) && w.path in files && files[w.path] == w.content
    ensures FileVerifies(files, FileOf(w, sha), sha)
  {
  }

  lemma ExportedFilesHold(c: Case, store: Store, root: Files, codec: Codec, sha: Content -> string,
                          provenance: string, i: nat)
    requires CaseOk(c) && Exportable(c, store, root, sha) && IsHash(sha)
    requires i < |DataWrites(c, store, root, codec, sha)|
    ensures
      var files := ExportedFiles(c, store, root, codec, sha, provenance);
      var w := DataWrites(c, store, root, codec, sha)[i];
      w.path in files && files[w.path] == w.content && FileVerifies(files, FileOf(w, sha), sha)
  {
    var plan := DataWrites(c, store, root, codec, sha);
    var content := codec.printManifest(ExportedManifest(c, store, root, codec, sha, provenance));
    var all := plan + [Write(BUNDLE_PATH, content)];
    RolesApart(c, store, root, codec, sha);
    ManifestApart(c, store, root, codec, sha, content);
    ApartWritesKeepContent(all, i);
    assert all[i] == plan[i];
    WrittenFileVerifies(ExportedFiles(c, store, root, codec, sha, provenance), plan[i], sha);
  }

  lemma ExportedManifestHolds(c: Case, store: Store, root: Files, codec: Codec, sha: Content -> string,
                              provenance: string)
    requires CaseOk(c) && Exportable(c, store, root, sha) && codec.Faithful()
    ensures
      var files := ExportedFiles(c, store, root, codec, sha, provenance);
      BUNDLE_PATH in files
      && codec.parseManifest(files[BUNDLE_PATH]) == Some(ExportedManifest(c, store, root, codec, sha, provenance))
  {
    PlanIsSound(c, store, root, codec, sha, provenance);
  }

  lemma ExportedRecordsHold(c: Case, store: Store, root: Files, codec: Codec, sha: Content -> string,
                            provenance: string)
    requires CaseOk(c) && Exportable(c, store, root, sha) && codec.Faithful() && IsHash(sha)
    ensures
      var m := ExportedManifest(c, store, root, codec, sha, provenance);
      var files := ExportedFiles(c, store, root, codec, sha, provenance);
      && FileVerifies(files, m.caseFile, sha) && codec.parseCase(files[m.caseFile.path]) == Some(c)
      && FileVerifies(files, m.experimentFile, sha)
      && codec.parseExperiment(files[m.experimentFile.path]) == Some(store.experiments[c.experimentId])
  {
    ExportedFilesHold(c, store, root, codec, sha, provenance, 0);
    ExportedFilesHold(c, store, root, codec, sha, provenance, 1);
  }

  lemma ExportedBenchmarkHolds(c: Case, store: Store, root: Files, codec: Codec, sha: Content -> string,
                               provenance: string, i: nat)
    requires CaseOk(c) && Exportable(c, store, root, sha) && codec.Faithful() && IsHash(sha) && i < |c.benchmarkIds|
    ensures
      var m := ExportedManifest(c, store, root, codec, sha, provenance);
      var files := ExportedFiles(c, store, root, codec, sha, provenance);
      && FileVerifies(files, m.benchmarkFiles[i].file, sha)
      && codec.parseBenchmark(files[m.benchmarkFiles[i].file.path]) == Some(BenchmarksOf(c, store)[i])
  {
    ManifestDescribes(c, DataWrites(c, store, root, codec, sha), provenance, sha);
    ExportedFilesHold(c, store, root, codec, sha, provenance, 2 + i);
    BenchmarkWriteAt(c, store, codec, i);
  }

  /** Each evidence file is exported under its own path, with the bytes of its source, which have the size and the
      digest that the case published for it. */
  lemma ExportedEvidenceHolds(c: Case, store: Store, root: Files, codec: Codec, sha: Content -> string,
                              provenance: string, i: nat)
    requires CaseOk(c) && Exportable(c, store, root, sha) && IsHash(sha) && i < |c.evidence|
    ensures
      var m := ExportedManifest(c, store, root, codec, sha, provenance);
      var files := ExportedFiles(c, store, root, codec, sha, provenance);
      && FileVerifies(files, m.evidenceFiles[i].file, sha)
      && Parts(c.evidence[i].path, "") in root
      && files[m.evidenceFiles[i].file.path] == root[Parts(c.evidence[i].path, "")]
      && m.evidenceFiles[i].file.path == ["evidence"] + Parts(c.evidence[i].path, "")
      && AsReferenced(c.evidence[i], files[m.evidenceFiles[i].file.path], sha)
  {
    assert EvidenceMatches(c.evidence[i], root, [], sha);
    assert [] + Parts(c.evidence[i].path, "") == Parts(c.evidence[i].path, "");
    EvidenceWriteAt(c, store, root, codec, sha, i);
    ManifestDescribes(c, DataWrites(c, store, root, codec, sha), provenance, sha);
    ExportedFilesHold(c, store, root, codec, sha, provenance, 2 + |c.benchmarkIds| + i);
  }

  /** The manifest describes each write in its place. */
  lemma ManifestDescribes(c: Case, writes: seq<Write>, provenance: string, sha: Content -> string)
    requires |writes| == 2 + |c.benchmarkIds| + |c.evidence|
    ensures
      var m := ManifestFor(c, writes, provenance, sha);
      && |m.benchmarkFiles| == |c.benchmarkIds| && |m.evidenceFiles| == |c.evidence|
      && (forall i :: 0 <= i < |c.benchmarkIds| ==> m.benchmarkFiles[i].file == FileOf(writes[2 + i], sha))
      && (forall i :: 0 <= i < |c.evidence| ==>
            m.evidenceFiles[i].file == FileOf(writes[2 + |c.benchmarkIds| + i], sha))
  {
  }

  lemma EvidenceWriteAt(c: Case, store: Store, root: Files, codec: Codec, sha: Content -> string, i: nat)
    requires RecordsMatch(c, store) && AllEvidenceMatches(c.evidence, root, [], sha) && i < |c.evidence|
    ensures
      var path := Parts(c.evidence[i].path, "");
      && path in root
      && DataWrites(c, store, root, codec, sha)[2 + |c.benchmarkIds| + i] == Write(EvidencePath(c.evidence[i]), root[path])
  {
    assert EvidenceMatches(c.evidence[i], root, [], sha);
    assert [] + Parts(c.evidence[i].path, "") == Parts(c.evidence[i].path, "");
  }

  /** What an export wrote loads as exactly the case, experiment and benchmarks it was given. */
  lemma ExportThenLoad(c: Case, store: Store, root: Files, codec: Codec, sha: Content -> string, provenance: string)
    requires CaseOk(c) && Exportable(c, store, root, sha) && codec.Faithful() && IsHash(sha)
    ensures
      LoadsAs(ExportedFiles(c, store, root, codec, sha, provenance), codec, sha,
              Loaded(ExportedManifest(c, store, root, codec, sha, provenance), c,
                     store.experiments[c.experimentId], BenchmarksOf(c, store)))
  {
    var m := ExportedManifest(c, store, root, codec, sha, provenance);
    var files := ExportedFiles(c, store, root, codec, sha, provenance);
    ExportedManifestHolds(c, store, root, codec, sha, provenance);
    ExportedRecordsHold(c, store, root, codec, sha, provenance);
    forall i | 0 <= i < |c.benchmarkIds|
      ensures FileVerifies(files, m.benchmarkFiles[i].file, sha)
           && codec.parseBenchmark(files[m.benchmarkFiles[i].file.path]) == Some(BenchmarksOf(c, store)[i])
    {
      ExportedBenchmarkHolds(c, store, root, codec, sha, provenance, i);
    }
    forall i | 0 <= i < |c.evidence| ensures FileVerifies(files, m.evidenceFiles[i].file, sha) {
      ExportedEvidenceHolds(c, store, root, codec, sha, provenance, i);
    }
  }

  /** Two runs of the code, back to back: an exported bundle loads as what was exported. */
  method RoundTrip(site: ExportSite, c: Case, store: Store, root: Files, provenance: string, codec: Codec,
                   sha: Content -> string, faults: Faults)
    returns (exported: bool, loaded: Option<Loaded>)
    requires CaseOk(c) && codec.Faithful() && IsHash(sha)
    modifies site
    ensures exported ==>
      && Exportable(c, store, root, sha) && loaded.Some?
      && loaded.value.case_ == c
      && loaded.value.experiment == store.experiments[c.experimentId]
      && loaded.value.benchmarks == BenchmarksOf(c, store)
      && site.target.Some?
      && forall i :: 0 <= i < |c.evidence| ==>
           var path := Parts(c.evidence[i].path, "");
           && path in root && ["evidence"] + path in site.target.value
           && site.target.value[["evidence"] + path] == root[path] && AsReferenced(c.evidence[i], root[path], sha)
    ensures !exported ==> site.target == old(site.target)
  {
    var r := site.Export(c, store, root, provenance, codec, sha, faults);
    if r.Err? {
      return false, None;
    }
    ExportThenLoad(c, store, root, codec, sha, provenance);
    var back := Load(site.target.value, codec, sha);
    ghost var expected := Loaded(ExportedManifest(c, store, root, codec, sha, provenance), c,
                                 store.experiments[c.experimentId], BenchmarksOf(c, store));
    assert LoadsAs(site.target.value, codec, sha, expected);
    OnlyOneContent(site.target.value, codec, sha, back.value, expected);
    forall i | 0 <= i < |c.evidence|
      ensures
        var path := Parts(c.evidence[i].path, "");
        && path in root && ["evidence"] + path in site.target.value
        && site.target.value[["evidence"] + path] == root[path] && AsReferenced(c.evidence[i], root[path], sha)
    {
      ExportedEvidenceHolds(c, store, root, codec, sha, provenance, i);
    }
    return true, Some(back.value);
  }

  // ---------------------------------------------------------------- tampering

  /** No two different files of these directories share a digest. */
  ghost predicate NoCollision(files: Files, other: Files, sha: Content -> string) {
    forall p, q :: p in files && q in other && sha(files[p]) == sha(other[q]) ==> files[p] == other[q]
  }

  /** The manifest lists this file, in whatever role. */
  ghost predicate Lists(m: Manifest, f: BundleFile) {
    || f == m.caseFile || f == m.experimentFile
    || (exists i :: 0 <= i < |m.benchmarkFiles| && m.benchmarkFiles[i].file == f)
    || (exists i :: 0 <= i < |m.evidenceFiles| && m.evidenceFiles[i].file == f)
  }

  /** A listed file that is missing, or has another size or digest, is enough to refuse a directory. */
  lemma DamageIsRefused(files: Files, codec: Codec, sha: Content -> string, m: Manifest, f: BundleFile, l: Loaded)
    requires BUNDLE_PATH in files && codec.parseManifest(files[BUNDLE_PATH]) == Some(m) && Lists(m, f)
    requires f.path !in files || |files[f.path]| != f.sizeBytes || sha(files[f.path]) != Lower(f.sha256)
    ensures !LoadsAs(files, codec, sha, l)
  {
  }

  /** Records that do not belong to the case, or evidence it does not reference, are refused too. */
  lemma StrangersAreRefused(files: Files, codec: Codec, sha: Content -> string, l: Loaded)
    requires LoadsAs(files, codec, sha, l)
    ensures l.experiment.experimentId == l.case_.experimentId
    ensures l.case_.benchmarkIds == seq(|l.benchmarks|, i requires 0 <= i < |l.benchmarks| => l.benchmarks[i].benchmarkId)
    ensures l.case_.benchmarkIds
         == seq(|l.manifest.benchmarkFiles|, i requires 0 <= i < |l.manifest.benchmarkFiles| =>
                  l.manifest.benchmarkFiles[i].benchmarkId)
    ensures l.case_.evidence
         == seq(|l.manifest.evidenceFiles|, i requires 0 <= i < |l.manifest.evidenceFiles| =>
                  l.manifest.evidenceFiles[i].reference)
  {
  }

  /** Whatever was done to the other files of a bundle, if it still loads under the same manifest it loads
      as the same content, evidence bytes included. */
  lemma NoSilentTampering(files: Files, other: Files, codec: Codec, sha: Content -> string, l: Loaded, l': Loaded)
    requires NoCollision(files, other, sha) && LoadsAs(files, codec, sha, l) && LoadsAs(other, codec, sha, l')
    requires other[BUNDLE_PATH] == files[BUNDLE_PATH]
    ensures l' == l
    ensures forall i :: 0 <= i < |l.manifest.evidenceFiles| ==>
              files[l.manifest.evidenceFiles[i].file.path] == other[l.manifest.evidenceFiles[i].file.path]
  {
  }
}
