/** Model files with digest sidecars: src/jaull/artifacts/storage.py and service.py as a state machine whose
    every step may fail and leave what it had done so far. */
module ArtifactStore {
  import opened Common
  import opened Text
  import opened Digests

  datatype Path = Path(owner: string, repo: string, name: string)

  type Files = map<Path, Content>

  datatype Error =
    | InvalidPath
    | DownloadFailed
    | VerificationFailed
    | OsError

  const SHA256_SUFFIX := ".sha256"

  // ---------------------------------------------------------------- paths

  function Sidecar(p: Path): Path { p.(name := p.name + SHA256_SUFFIX) }

  predicate ValidSegment(s: string) {
    s != "" && s != "." && s != ".." && '/' !in s && '\\' !in s && '\0' !in s
  }

  /** The text before the first slash. */
  function BeforeSlash(s: string): string {
    if s == "" || s[0] == '/' then "" else [s[0]] + BeforeSlash(s[1..])
  }

  function PathFor(repoId: string, filename: string): Result<Path, Error> {
    var owner := BeforeSlash(repoId);
    var repo := if |owner| < |repoId| then repoId[|owner| + 1..] else "";
    if ValidSegment(owner) && ValidSegment(repo) && ValidSegment(filename)
    then Ok(Path(owner, repo, filename)) else Err(InvalidPath)
  }

  lemma {:induction false} BeforeSlashIs(owner: string, rest: string)
    requires '/' !in owner && (rest == "" || rest[0] == '/')
    ensures BeforeSlash(owner + rest) == owner
  {
    if owner == "" {
      assert owner + rest == rest;
    } else {
      assert (owner + rest)[1..] == owner[1..] + rest;
      BeforeSlashIs(owner[1..], rest);
      assert owner == [owner[0]] + owner[1..];
    }
  }

  lemma {:induction false} SlashFollows(s: string)
    ensures BeforeSlash(s) <= s && '/' !in BeforeSlash(s)
    ensures |BeforeSlash(s)| < |s| ==> s[|BeforeSlash(s)|] == '/'
  {
    if s != "" && s[0] != '/' {
      SlashFollows(s[1..]);
      assert s == [s[0]] + s[1..];
    }
  }

  lemma SplitAtSlash(repoId: string, owner: string, repo: string)
    requires '/' !in owner && repoId == owner + "/" + repo
    ensures BeforeSlash(repoId) == owner && |owner| < |repoId| && repoId[|owner| + 1..] == repo
  {
    assert repoId == owner + ("/" + repo);
    BeforeSlashIs(owner, "/" + repo);
  }

  lemma JoinAtSlash(repoId: string)
    ensures
      var owner := BeforeSlash(repoId);
      '/' !in owner && (|owner| < |repoId| ==> repoId == owner + "/" + repoId[|owner| + 1..])
  {
    SlashFollows(repoId);
  }

  /** A path is given exactly to a repository named owner/repo and a file, when none of the three could leave
      its folder. */
  lemma PathForIff(repoId: string, filename: string, p: Path)
    ensures PathFor(repoId, filename) == Ok(p) <==>
      && repoId == p.owner + "/" + p.repo && filename == p.name
      && var parts := [p.owner, p.repo, p.name];
         forall i :: 0 <= i < 3 ==>
           parts[i] != "" && parts[i] != "." && parts[i] != ".."
           && '/' !in parts[i] && '\\' !in parts[i] && '\0' !in parts[i]
  {
    var parts := [p.owner, p.repo, p.name];
    assert parts[0] == p.owner && parts[1] == p.repo && parts[2] == p.name;
    if PathFor(repoId, filename) == Ok(p) {
      JoinAtSlash(repoId);
    }
    if repoId == p.owner + "/" + p.repo && '/' !in p.owner {
      SplitAtSlash(repoId, p.owner, p.repo);
    }
  }

  /** What the store lists as a model: a file that is not a sidecar. */
  predicate IsModelName(name: string) { ValidSegment(name) && !EndsWith(name, SHA256_SUFFIX) }

  /** The name under which another model's digest is kept. */
  predicate IsSidecarName(name: string) {
    EndsWith(name, SHA256_SUFFIX) && IsModelName(name[..|name| - |SHA256_SUFFIX|])
  }

  // ---------------------------------------------------------------- sidecars

  function ReadDigest(text: Content): Result<Option<string>, Error> {
    if exists i :: 0 <= i < |text| && text[i] >= '\U{80}' then Err(VerificationFailed)
    else
      var digest := Strip(text);
      if digest == "" then Ok(None)
      else if |digest| == DIGEST_LENGTH && forall i :: 0 <= i < |digest| ==> IsHex(digest[i]) then Ok(Some(Lower(digest)))
      else Err(VerificationFailed)
  }

  /** Only the 64 hex digits alone, but for white space around them, are read as a digest, in lower case. */
  lemma ReadDigestIff(text: Content, d: string)
    ensures ReadDigest(text) == Ok(Some(d)) <==>
      && (forall i :: 0 <= i < |text| ==> text[i] < '\U{80}')
      && |Strip(text)| == 64 && (forall i :: 0 <= i < 64 ==> IsHex(Strip(text)[i])) && d == Lower(Strip(text))
  {
  }

  function Load(files: Files, p: Path): Result<Option<string>, Error> {
    if Sidecar(p) !in files then Ok(None) else ReadDigest(files[Sidecar(p)])
  }

  /** No sidecar certifies bytes it was not computed from. */
  ghost predicate CertifiedAt(files: Files, sha: Content -> string, p: Path) {
    p in files && Load(files, p).Ok? && Load(files, p).value.Some? ==> Load(files, p).value.value == sha(files[p])
  }

  ghost predicate Certified(files: Files, sha: Content -> string) {
    forall p :: p in files && IsModelName(p.name) ==> CertifiedAt(files, sha, p)
  }

  // ---------------------------------------------------------------- one download

  /** What the downloader leaves at its target, finished or not. */
  datatype Left = Unchanged | Absent | Holds(bytes: Content)

  /** How far each step of one download gets. A failed write of the sidecar leaves none, or the first
      characters of its text. */
  datatype DownloadEvent = DownloadEvent(
    parentFails: bool, clearFails: bool, left: Left, downloaderFails: bool, hashFails: bool,
    saveFails: bool, savedPrefix: Option<nat>)

  function Leave(files: Files, p: Path, left: Left): Files {
    match left
    case Unchanged => files
    case Absent => files - {p}
    case Holds(bytes) => files[p := bytes]
  }

  function Take(s: string, n: nat): string { if n < |s| then s[..n] else s }

  datatype Stepped<T> = Stepped(files: Files, result: Result<T, Error>)

  function DownloadStep(files: Files, p: Path, expected: Option<string>, e: DownloadEvent,
                        sha: Content -> string): Stepped<string> {
    if e.parentFails || e.clearFails then Stepped(files, Err(DownloadFailed))
    else
      var written := Leave(files - {Sidecar(p)}, p, e.left);
      if e.downloaderFails || p !in written || e.hashFails then Stepped(written, Err(DownloadFailed))
      else
        var digest := sha(written[p]);
        if expected.Some? && digest != Lower(expected.value) then Stepped(written, Err(VerificationFailed))
        else if e.saveFails then
          Stepped(if e.savedPrefix.None? then written
                  else written[Sidecar(p) := Take(digest + "\n", e.savedPrefix.value)],
                  Err(DownloadFailed))
        else Stepped(written[Sidecar(p) := digest + "\n"], Ok(digest))
  }

  /** The bytes at the target once the downloader is done. */
  function Arrived(files: Files, p: Path, left: Left): Option<Content> {
    match left
    case Holds(bytes) => Some(bytes)
    case Absent => None
    case Unchanged => if p in files then Some(files[p]) else None
  }

  predicate NoStepFails(e: DownloadEvent) {
    !e.parentFails && !e.clearFails && !e.downloaderFails && !e.hashFails && !e.saveFails
  }

  /** The published digest, if there is one, is that of these bytes. */
  predicate AsPublished(expected: Option<string>, bytes: Content, sha: Content -> string) {
    match expected
    case None => true
    case Some(published) => sha(bytes) == Lower(published)
  }

  /** Exactly when a download succeeds; what it then stores and records; and that bytes which differ from the
      published digest are refused, with no sidecar left to certify them. */
  lemma DownloadOkIff(files: Files, p: Path, expected: Option<string>, e: DownloadEvent, sha: Content -> string)
    requires IsHash(sha)
    ensures
      var step, bytes := DownloadStep(files, p, expected, e, sha), Arrived(files, p, e.left);
      && (step.result.Ok? <==> NoStepFails(e) && bytes.Some? && AsPublished(expected, bytes.value, sha))
      && (step.result.Ok? ==>
            && p in step.files && step.files[p] == bytes.value
            && step.result.value == sha(bytes.value) && Load(step.files, p) == Ok(Some(sha(bytes.value))))
      && (NoStepFails(e) && bytes.Some? && !AsPublished(expected, bytes.value, sha) ==>
            && step.result == Err(VerificationFailed)
            && p in step.files && step.files[p] == bytes.value && Sidecar(p) !in step.files)
  {
    assert Sidecar(p) != p;
    var bytes := Arrived(files, p, e.left);
    if bytes.Some? {
      SavedDigestReads(sha(bytes.value));
    }
  }

  // ---------------------------------------------------------------- one deletion

  /** rmtree ignores errors, so it removes any part of what it was pointed at. */
  datatype DeleteEvent = DeleteEvent(
    unlinkFails: bool, sidecarFails: bool, leftoverFails: bool, treeRemoves: set<Path>)

  predicate InFolder(p: Path, q: Path) { p.owner == q.owner && p.repo == q.repo }

  predicate FolderHasModel(files: Files, folder: Path) {
    exists q :: q in files && InFolder(q, folder) && !EndsWith(q.name, SHA256_SUFFIX)
  }

  function RemoveTree(files: Files, folder: Path, removes: set<Path>): Files {
    files - (set q | q in removes && InFolder(q, folder))
  }

  function DeleteStep(files: Files, folders: set<(string, string)>, p: Path, e: DeleteEvent): Stepped<nat> {
    var freed := if p in files then |files[p]| else 0;
    if e.unlinkFails then Stepped(files, Err(OsError))
    else if e.sidecarFails then Stepped(files - {p}, Err(OsError))
    else
      var cleared := files - {p} - {Sidecar(p)};
      if e.leftoverFails || (p.owner, p.repo) !in folders then Stepped(cleared, Err(OsError))
      else if FolderHasModel(cleared, p) then Stepped(cleared, Ok(freed))
      else Stepped(RemoveTree(cleared, p, e.treeRemoves), Ok(freed))
  }

  /** The folder goes with its last file, never while a model is in it. */
  function FoldersAfterDelete(files: Files, folders: set<(string, string)>, p: Path,
                              e: DeleteEvent): set<(string, string)> {
    var step := DeleteStep(files, folders, p, e);
    if step.result.Ok? && forall q :: q in step.files ==> !InFolder(q, p) then folders - {(p.owner, p.repo)} else folders
  }

  // ---------------------------------------------------------------- the code

  class ArtifactStorage {
    var files: Files
    var folders: set<(string, string)>

    constructor ()
      ensures files == map[] && folders == {}
    {
      files := map[];
      folders := {};
    }

    method EnsureParent(p: Path)
      modifies this`folders
      ensures folders == old(folders) + {(p.owner, p.repo)}
    {
      folders := folders + {(p.owner, p.repo)};
    }

    method SaveSha256(p: Path, digest: string, e: DownloadEvent) returns (ok: bool)
      modifies this`files
      ensures ok == !e.saveFails
      ensures ok ==> files == old(files)[Sidecar(p) := Strip(digest) + "\n"]
      ensures !ok ==> files == if e.savedPrefix.None? then old(files)
                               else old(files)[Sidecar(p) := Take(Strip(digest) + "\n", e.savedPrefix.value)]
      ensures IsDigest(digest) && ok ==> Load(files, p) == Ok(Some(digest))
      ensures IsDigest(digest) && Sidecar(p) !in old(files) && Load(files, p).Ok? && Load(files, p).value.Some?
              ==> Load(files, p).value.value == digest
    {
      var text := Strip(digest) + "\n";
      if IsDigest(digest) {
        DigestHasNoSpace(digest);
        SavedDigestReads(digest);
        if e.savedPrefix.Some? {
          PartialSidecarNeverLies(digest, e.savedPrefix.value);
        }
      }
      if e.saveFails {
        if e.savedPrefix.Some? {
          files := files[Sidecar(p) := Take(text, e.savedPrefix.value)];
        }
        return false;
      }
      files := files[Sidecar(p) := text];
      ok := true;
    }

    method ClearSha256(p: Path)
      modifies this`files
      ensures files == old(files) - {Sidecar(p)}
    {
      files := files - {Sidecar(p)};
    }

    method LoadSha256(p: Path) returns (r: Result<Option<string>, Error>)
      ensures r == Load(files, p)
    {
      if Sidecar(p) !in files {
        return Ok(None);
      }
      r := ReadDigest(files[Sidecar(p)]);
    }

    /** Removes one file, its sidecar and, when only bookkeeping is left, its folder. */
    method Delete(repoId: string, filename: string, e: DeleteEvent) returns (r: Result<nat, Error>)
      modifies this
      ensures PathFor(repoId, filename).Err? ==> r == Err(InvalidPath) && files == old(files) && folders == old(folders)
      ensures PathFor(repoId, filename).Ok? ==>
        var step := DeleteStep(old(files), old(folders), PathFor(repoId, filename).value, e);
        && r == step.result && files == step.files
        && folders == FoldersAfterDelete(old(files), old(folders), PathFor(repoId, filename).value, e)
      ensures r.Ok? <==>
        && !e.unlinkFails && !e.sidecarFails && !e.leftoverFails
        && PathFor(repoId, filename).Ok?
        && (PathFor(repoId, filename).value.owner, PathFor(repoId, filename).value.repo) in old(folders)
      ensures r.Err? ==> folders == old(folders)
      ensures r.Ok? ==>
        var p := PathFor(repoId, filename).value;
        folders == if exists q :: q in files && q.owner == p.owner && q.repo == p.repo then old(folders)
                   else old(folders) - {(p.owner, p.repo)}
    {
      var path := PathFor(repoId, filename);
      if path.Err? {
        return Err(InvalidPath);
      }
      var p := path.value;
      var freed := if p in files then |files[p]| else 0;
      if e.unlinkFails {
        return Err(OsError);
      }
      files := files - {p};
      if e.sidecarFails {
        return Err(OsError);
      }
      files := files - {Sidecar(p)};
      if e.leftoverFails || (p.owner, p.repo) !in folders {
        return Err(OsError);
      }
      if !FolderHasModel(files, p) {
        files := RemoveTree(files, p, e.treeRemoves);
        if forall q :: q in files ==> !InFolder(q, p) {
          folders := folders - {(p.owner, p.repo)};
        }
      }
      r := Ok(freed);
    }
  }

  datatype Artifact = Artifact(
    repoId: string, filename: string, sizeBytes: Option<nat>, localPath: Option<Path>, sha256: Option<string>,
    isDownloaded: bool, isVerified: bool)

  function TargetOf(a: Artifact): Result<Path, Error> {
    if a.localPath.Some? then Ok(a.localPath.value) else PathFor(a.repoId, a.filename)
  }

  /** The stored bytes are what the artifact claims: present, of the declared size, with the published digest;
      and a digest was recorded for them. */
  ghost predicate IsSound(files: Files, a: Artifact, p: Path, sha: Content -> string) {
    && p in files
    && (a.sizeBytes.Some? ==> |files[p]| == a.sizeBytes.value)
    && (a.sha256.Some? ==> sha(files[p]) == Lower(a.sha256.value))
    && Load(files, p).Ok? && Load(files, p).value.Some?
  }

  /** Checks the file against its sidecar and, when full, the sidecar against the bytes. */
  function VerifyResult(files: Files, a: Artifact, full: bool, sha: Content -> string): Result<Artifact, Error> {
    var path := TargetOf(a);
    if path.Err? then Err(InvalidPath)
    else
      var p := path.value;
      if p !in files then Err(VerificationFailed)
      else if a.sizeBytes.Some? && |files[p]| != a.sizeBytes.value then Err(VerificationFailed)
      else
        var stored := Load(files, p);
        if stored.Err? then Err(stored.error)
        else if stored.value.None? then Err(VerificationFailed)
        else if a.sha256.Some? && stored.value.value != Lower(a.sha256.value) then Err(VerificationFailed)
        else if full && sha(files[p]) != stored.value.value then Err(VerificationFailed)
        else Ok(a.(localPath := Some(p), sha256 := stored.value, isDownloaded := true, isVerified := true))
  }

  class ArtifactService {
    const storage: ArtifactStorage
    const sha: Content -> string

    constructor (storage: ArtifactStorage, sha: Content -> string)
      requires IsHash(sha)
      ensures this.storage == storage && this.sha == sha
    {
      this.storage := storage;
      this.sha := sha;
    }

    method Download(a: Artifact, e: DownloadEvent) returns (r: Result<Artifact, Error>)
      requires IsHash(sha)
      modifies storage
      ensures PathFor(a.repoId, a.filename).Err? ==> r == Err(InvalidPath) && unchanged(storage)
      ensures PathFor(a.repoId, a.filename).Ok? ==>
        var p := PathFor(a.repoId, a.filename).value;
        var step := DownloadStep(old(storage.files), p, a.sha256, e, sha);
        && storage.files == step.files
        && storage.folders == (if e.parentFails then old(storage.folders) else old(storage.folders) + {(p.owner, p.repo)})
        && r == if step.result.Err? then Err(step.result.error)
                else Ok(a.(localPath := Some(p), sha256 := Some(step.result.value), isDownloaded := true, isVerified := false))
      ensures PathFor(a.repoId, a.filename).Ok? ==>
        var p := PathFor(a.repoId, a.filename).value;
        var bytes := Arrived(old(storage.files), p, e.left);
        && (r.Ok? <==> NoStepFails(e) && bytes.Some? && AsPublished(a.sha256, bytes.value, sha))
        && (r.Ok? ==>
              && p in storage.files && storage.files[p] == bytes.value
              && Load(storage.files, p) == Ok(Some(sha(bytes.value))) && r.value.sha256 == Some(sha(bytes.value)))
        && (NoStepFails(e) && bytes.Some? && !AsPublished(a.sha256, bytes.value, sha) ==>
              r == Err(VerificationFailed) && Sidecar(p) !in storage.files)
    {
      var target := PathFor(a.repoId, a.filename);
      if target.Err? {
        return Err(InvalidPath);
      }
      var p := target.value;
      DownloadOkIff(storage.files, p, a.sha256, e, sha);
      if e.parentFails {
        return Err(DownloadFailed);
      }
      storage.EnsureParent(p);
      if e.clearFails {
        return Err(DownloadFailed);
      }
      storage.ClearSha256(p);
      storage.files := Leave(storage.files, p, e.left);
      if e.downloaderFails {
        return Err(DownloadFailed);
      }
      if p !in storage.files || e.hashFails {
        return Err(DownloadFailed);
      }
      var digest := sha(storage.files[p]);
      DigestHasNoSpace(digest);
      if a.sha256.Some? && digest != Lower(a.sha256.value) {
        return Err(VerificationFailed);
      }
      var saved := storage.SaveSha256(p, digest, e);
      if !saved {
        return Err(DownloadFailed);
      }
      r := Ok(a.(localPath := Some(p), sha256 := Some(digest), isDownloaded := true, isVerified := false));
    }

    method Verify(a: Artifact, full: bool) returns (r: Result<Artifact, Error>)
      ensures r == VerifyResult(storage.files, a, full, sha)
      ensures TargetOf(a).Err? ==> r == Err(InvalidPath)
      ensures TargetOf(a).Ok? ==>
        var p := TargetOf(a).value;
        && (CertifiedAt(storage.files, sha, p) ==> (r.Ok? <==> IsSound(storage.files, a, p, sha)))
        && (full ==> (r.Ok? <==> IsSound(storage.files, a, p, sha) && CertifiedAt(storage.files, sha, p)))
        && (r.Ok? && CertifiedAt(storage.files, sha, p) ==> r.value.sha256 == Some(sha(storage.files[p])))
    {
      var path := TargetOf(a);
      if path.Err? {
        return Err(InvalidPath);
      }
      var p := path.value;
      if p !in storage.files {
        return Err(VerificationFailed);
      }
      var actualSize := |storage.files[p]|;
      if a.sizeBytes.Some? && actualSize != a.sizeBytes.value {
        return Err(VerificationFailed);
      }
      var stored := storage.LoadSha256(p);
      if stored.Err? {
        return Err(stored.error);
      }
      if stored.value.None? {
        return Err(VerificationFailed);
      }
      if a.sha256.Some? && stored.value.value != Lower(a.sha256.value) {
        return Err(VerificationFailed);
      }
      if full {
        var disk := sha(storage.files[p]);
        if disk != stored.value.value {
          return Err(VerificationFailed);
        }
      }
      r := Ok(a.(localPath := Some(p), sha256 := stored.value, isDownloaded := true, isVerified := true));
    }
  }

  // ---------------------------------------------------------------- digests survive the round trip

  lemma DigestHasNoSpace(d: string)
    requires forall i :: 0 <= i < |d| ==> IsHex(d[i])
    ensures Strip(d) == d && Strip(d + "\n") == d
  {
  }

  /** Whatever part of a sidecar's text reaches the disk, reading it gives the digest or no digest. */
  lemma PartialSidecarNeverLies(d: string, n: nat)
    requires IsDigest(d)
    ensures
      var read := ReadDigest(Take(d + "\n", n));
      read.Ok? && read.value.Some? ==> read.value.value == d
  {
    var text := Take(d + "\n", n);
    if n <= |d| {
      assert text == d[..n];
      DigestHasNoSpace(d[..n]);
    } else {
      assert text == d + "\n";
      DigestHasNoSpace(d);
    }
    if n >= |d| {
      assert Lower(d) == d;
    }
  }

  lemma SavedDigestReads(d: string)
    requires IsDigest(d)
    ensures ReadDigest(d + "\n") == Ok(Some(d))
  {
    DigestHasNoSpace(d);
    assert Lower(d) == d;
  }

  // ---------------------------------------------------------------- safety of one step

  lemma SidecarsAreApart(p: Path, q: Path)
    ensures Sidecar(p) == Sidecar(q) ==> p == q
    ensures IsModelName(q.name) ==> Sidecar(p) != q
  {
    if p.name + SHA256_SUFFIX == q.name + SHA256_SUFFIX {
      assert p.name == (p.name + SHA256_SUFFIX)[..|p.name|];
      assert q.name == (q.name + SHA256_SUFFIX)[..|q.name|];
    }
    assert EndsWith(Sidecar(p).name, SHA256_SUFFIX);
  }

  lemma SidecarNameOf(q: Path, p: Path)
    requires IsModelName(q.name) && Sidecar(q) == p
    ensures IsSidecarName(p.name)
  {
  }

  /** A download writes its target and its target's sidecar, no other file. */
  lemma DownloadFrame(files: Files, p: Path, expected: Option<string>, e: DownloadEvent, sha: Content -> string,
                      q: Path)
    requires q != p && q != Sidecar(p)
    ensures
      var after := DownloadStep(files, p, expected, e, sha).files;
      (q in after <==> q in files) && (q in files ==> after[q] == files[q])
  {
  }

  lemma DownloadCertifiesTarget(files: Files, p: Path, expected: Option<string>, e: DownloadEvent,
                                sha: Content -> string)
    requires IsHash(sha) && CertifiedAt(files, sha, p)
    ensures CertifiedAt(DownloadStep(files, p, expected, e, sha).files, sha, p)
  {
    assert Sidecar(p) != p;
    if !e.parentFails && !e.clearFails {
      var written := Leave(files - {Sidecar(p)}, p, e.left);
      if p in written {
        var digest := sha(written[p]);
        DigestHasNoSpace(digest);
        PartialSidecarNeverLies(digest, |digest| + 1);
        if e.savedPrefix.Some? {
          PartialSidecarNeverLies(digest, e.savedPrefix.value);
        }
      }
    }
  }

  lemma DownloadKeepsCertified(files: Files, p: Path, expected: Option<string>, e: DownloadEvent,
                               sha: Content -> string)
    requires IsHash(sha) && Certified(files, sha) && !IsSidecarName(p.name)
    ensures Certified(DownloadStep(files, p, expected, e, sha).files, sha)
  {
    var after := DownloadStep(files, p, expected, e, sha).files;
    forall q | q in after && IsModelName(q.name) ensures CertifiedAt(after, sha, q) {
      if q == p {
        DownloadCertifiesTarget(files, p, expected, e, sha);
      } else {
        SidecarsAreApart(p, q);
        if Sidecar(q) == p {
          SidecarNameOf(q, p);
        }
        DownloadFrame(files, p, expected, e, sha, q);
        DownloadFrame(files, p, expected, e, sha, Sidecar(q));
      }
    }
  }

  // ---------------------------------------------------------------- exactly which names are safe

  ghost predicate NeverBreaks(p: Path, sha: Content -> string) {
    forall files: Files, expected: Option<string>, e: DownloadEvent ::
      Certified(files, sha) ==> Certified(DownloadStep(files, p, expected, e, sha).files, sha)
  }

  function Repeat(c: char, n: nat): string { seq(n, _ => c) }

  /** Downloading a file that is itself named like a sidecar overwrites the digest of another model. */
  lemma SidecarNameBreaks(p: Path, sha: Content -> string)
    requires IsHash(sha) && IsSidecarName(p.name)
    ensures !NeverBreaks(p, sha)
  {
    var base := p.(name := p.name[..|p.name| - |SHA256_SUFFIX|]);
    assert Sidecar(base) == p;
    var files: Files := map[base := ""];
    assert Certified(files, sha) by {
      forall q | q in files && IsModelName(q.name) ensures CertifiedAt(files, sha, q) {
        SidecarsAreApart(base, base);
      }
    }
    var zeros, ones := Repeat('0', DIGEST_LENGTH), Repeat('1', DIGEST_LENGTH);
    assert zeros[0] != ones[0];
    var forged := if sha("") == zeros then ones else zeros;
    DigestHasNoSpace(forged);
    assert Lower(forged) == forged;
    var e := DownloadEvent(false, false, Holds(forged), true, false, false, None);
    var after := DownloadStep(files, p, None, e, sha).files;
    assert after[p] == forged && base in after && after[base] == "";
    assert forall i :: 0 <= i < |forged| ==> forged[i] < '\U{80}';
    assert Load(after, base) == Ok(Some(forged));
    assert !CertifiedAt(after, sha, base);
  }

  /** The invariant survives every download of a name if and only if no other model keeps its digest there. */
  lemma SafeNamesExactly(p: Path, sha: Content -> string)
    requires IsHash(sha)
    ensures NeverBreaks(p, sha) <==> !IsSidecarName(p.name)
  {
    if IsSidecarName(p.name) {
      SidecarNameBreaks(p, sha);
    } else {
      forall files: Files, expected: Option<string>, e: DownloadEvent | Certified(files, sha)
        ensures Certified(DownloadStep(files, p, expected, e, sha).files, sha)
      {
        DownloadKeepsCertified(files, p, expected, e, sha);
      }
    }
  }

  // ---------------------------------------------------------------- deletion

  /** Deleting one file never removes or changes another model, however far it gets. */
  lemma DeleteSparesOtherModels(files: Files, folders: set<(string, string)>, p: Path, e: DeleteEvent, q: Path)
    requires q in files && q != p && !EndsWith(q.name, SHA256_SUFFIX)
    ensures
      var after := DeleteStep(files, folders, p, e).files;
      q in after && after[q] == files[q]
  {
  }

  /** A deletion that succeeds frees exactly the bytes of the file, and the file and its sidecar are gone. As long
      as a model is left in the folder, nothing else is. */
  lemma DeleteFreesTheFile(files: Files, folders: set<(string, string)>, p: Path, e: DeleteEvent)
    requires DeleteStep(files, folders, p, e).result.Ok?
    ensures
      var step := DeleteStep(files, folders, p, e);
      && step.result.value == (if p in files then |files[p]| else 0)
      && p !in step.files && Sidecar(p) !in step.files
      && (forall q :: q in files && (q.owner != p.owner || q.repo != p.repo) ==> q in step.files)
      && ((exists q :: q in step.files && q.owner == p.owner && q.repo == p.repo && !EndsWith(q.name, SHA256_SUFFIX))
          ==> step.files == files - {p, Sidecar(p)})
  {
    var cleared := files - {p} - {Sidecar(p)};
    assert cleared == files - {p, Sidecar(p)};
    forall q | q in DeleteStep(files, folders, p, e).files && q.owner == p.owner && q.repo == p.repo
               && !EndsWith(q.name, SHA256_SUFFIX)
      ensures FolderHasModel(cleared, p)
    {
      assert q in cleared && InFolder(q, p);
    }
  }

  lemma DeleteOnlyRemoves(files: Files, folders: set<(string, string)>, p: Path, e: DeleteEvent)
    ensures
      var after := DeleteStep(files, folders, p, e).files;
      forall q :: q in after ==> q in files && after[q] == files[q]
  {
  }

  lemma DeleteKeepsCertified(files: Files, folders: set<(string, string)>, p: Path, e: DeleteEvent,
                             sha: Content -> string)
    requires Certified(files, sha)
    ensures Certified(DeleteStep(files, folders, p, e).files, sha)
  {
    DeleteOnlyRemoves(files, folders, p, e);
    var after := DeleteStep(files, folders, p, e).files;
    forall q | q in after && IsModelName(q.name) ensures CertifiedAt(after, sha, q) {
      assert CertifiedAt(files, sha, q);
    }
  }

  // ---------------------------------------------------------------- whole runs

  datatype Operation =
    | Fetch(repoId: string, filename: string, expected: Option<string>, download: DownloadEvent)
    | Remove(repoId: string, filename: string, deletion: DeleteEvent)
    | Check(artifact: Artifact, full: bool)

  function Apply(files: Files, folders: set<(string, string)>, op: Operation, sha: Content -> string): Files {
    match op
    case Fetch(repoId, filename, expected, e) =>
      var p := PathFor(repoId, filename);
      if p.Err? then files else DownloadStep(files, p.value, expected, e, sha).files
    case Remove(repoId, filename, e) =>
      var p := PathFor(repoId, filename);
      if p.Err? then files else DeleteStep(files, folders, p.value, e).files
    case Check(_, _) => files
  }

  /** The folder view each operation meets is arbitrary. */
  function After(files: Files, run: seq<(Operation, set<(string, string)>)>, sha: Content -> string): Files
    decreases |run|
  {
    if run == [] then files else After(Apply(files, run[0].1, run[0].0, sha), run[1..], sha)
  }

  predicate NoSidecarFetched(run: seq<(Operation, set<(string, string)>)>) {
    forall i :: 0 <= i < |run| && run[i].0.Fetch? ==> !IsSidecarName(run[i].0.filename)
  }

  lemma {:induction false} EveryReachableStateIsCertified(files: Files, run: seq<(Operation, set<(string, string)>)>,
                                                          sha: Content -> string)
    requires IsHash(sha) && Certified(files, sha) && NoSidecarFetched(run)
    ensures Certified(After(files, run, sha), sha)
    decreases |run|
  {
    if run != [] {
      var (op, folders) := run[0];
      match op {
        case Fetch(repoId, filename, expected, e) =>
          var p := PathFor(repoId, filename);
          if p.Ok? {
            DownloadKeepsCertified(files, p.value, expected, e, sha);
          }
        case Remove(repoId, filename, e) =>
          var p := PathFor(repoId, filename);
          if p.Ok? {
            DeleteKeepsCertified(files, folders, p.value, e, sha);
          }
        case Check(_, _) =>
      }
      EveryReachableStateIsCertified(Apply(files, folders, op, sha), run[1..], sha);
    }
  }

  /** From an empty store, after any run, the quick verification and the full one give the same answer, and
      a verified artifact with a published digest has exactly those bytes. */
  lemma QuickVerifyIsFullVerify(run: seq<(Operation, set<(string, string)>)>, a: Artifact, sha: Content -> string)
    requires IsHash(sha) && NoSidecarFetched(run)
    requires if a.localPath.Some? then IsModelName(a.localPath.value.name) else IsModelName(a.filename)
    ensures
      var files := After(map[], run, sha);
      var quick := VerifyResult(files, a, false, sha);
      && quick == VerifyResult(files, a, true, sha)
      && (quick.Ok? ==>
            && quick.value.localPath.Some? && quick.value.localPath.value in files
            && quick.value.sha256 == Some(sha(files[quick.value.localPath.value]))
            && (a.sha256.Some? ==> sha(files[quick.value.localPath.value]) == Lower(a.sha256.value)))
  {
    EveryReachableStateIsCertified(map[], run, sha);
    var files := After(map[], run, sha);
    var path := TargetOf(a);
    if path.Ok? && path.value in files {
      assert CertifiedAt(files, sha, path.value);
    }
  }

  /** What resolving an artifact adds when its file is already stored. */
  function PromoteResult(files: Files, a: Artifact): Result<Artifact, Error> {
    var path := PathFor(a.repoId, a.filename);
    if path.Err? then Err(InvalidPath)
    else if path.value !in files then Ok(a)
    else
      var stored := Load(files, path.value);
      var present := a.(localPath := Some(path.value), isDownloaded := true);
      if stored.Err? then Err(stored.error)
      else if stored.value.None? then Ok(present)
      else if a.sha256.Some? && stored.value.value != Lower(a.sha256.value) then Err(VerificationFailed)
      else Ok(present.(sha256 := stored.value))
  }

  /** Resolving leaves an artifact that is not stored as it was, and marks one without a digest as stored. */
  lemma PromoteWithoutDigest(files: Files, a: Artifact, p: Path)
    requires PathFor(a.repoId, a.filename) == Ok(p)
    ensures p !in files ==> PromoteResult(files, a) == Ok(a)
    ensures p in files && Sidecar(p) !in files
            ==> PromoteResult(files, a) == Ok(a.(localPath := Some(p), isDownloaded := true))
  {
  }

  /** After any run, resolving a stored artifact with an accepted sidecar succeeds if and only if the published
      digest, if there is one, is that of the stored bytes; and then the digest it reports is theirs too. */
  lemma PromotedDigestIsGenuine(run: seq<(Operation, set<(string, string)>)>, a: Artifact, sha: Content -> string)
    requires IsHash(sha) && NoSidecarFetched(run) && IsModelName(a.filename)
    ensures
      var files := After(map[], run, sha);
      var path := PathFor(a.repoId, a.filename);
      var r := PromoteResult(files, a);
      path.Ok? && path.value in files && Load(files, path.value).Ok? && Load(files, path.value).value.Some? ==>
        var bytes := files[path.value];
        && (r.Ok? <==> (a.sha256.Some? ==> Lower(a.sha256.value) == sha(bytes)))
        && (r.Ok? ==> r.value == a.(localPath := Some(path.value), isDownloaded := true, sha256 := Some(sha(bytes))))
  {
    EveryReachableStateIsCertified(map[], run, sha);
    var files := After(map[], run, sha);
    var path := PathFor(a.repoId, a.filename);
    if path.Ok? && path.value in files {
      assert CertifiedAt(files, sha, path.value);
    }
  }

  /** What a successful download returns passes both verifications at once. */
  lemma DownloadThenVerifies(files: Files, a: Artifact, e: DownloadEvent, sha: Content -> string, full: bool)
    requires IsHash(sha) && PathFor(a.repoId, a.filename).Ok?
    requires
      var step := DownloadStep(files, PathFor(a.repoId, a.filename).value, a.sha256, e, sha);
      step.result.Ok?
    ensures
      var p := PathFor(a.repoId, a.filename).value;
      var step := DownloadStep(files, p, a.sha256, e, sha);
      var got := a.(localPath := Some(p), sha256 := Some(step.result.value), isDownloaded := true, isVerified := false);
      && p in step.files
      && (VerifyResult(step.files, got, full, sha).Ok? <==> a.sizeBytes.None? || a.sizeBytes.value == |step.files[p]|)
  {
    var p := PathFor(a.repoId, a.filename).value;
    var step := DownloadStep(files, p, a.sha256, e, sha);
    assert p != Sidecar(p);
    var digest := step.result.value;
    assert Lower(digest) == digest;
    DigestHasNoSpace(digest);
    assert step.files[Sidecar(p)] == digest + "\n";
    assert forall i :: 0 <= i < |digest| ==> digest[i] < '\U{80}';
  }
}
