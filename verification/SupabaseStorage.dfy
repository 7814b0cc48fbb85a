/** The storage adapter as it runs inside one worker: requests that can fail, and the start-up
    loop that stops at the first failure. */
module Storage {
  import opened AsciiText
  import opened BucketMigration
  import opened Options
  import opened PosixPaths

  const ALLOWED_EXTENSIONS := {
    ".pdf", ".png", ".jpg", ".jpeg", ".doc", ".docx", ".xls", ".xlsx", ".txt", ".csv"
  }

  /** The private bucket as the server knows it. */
  datatype Access = Absent | Open | Locked

  /** A request works, or fails before or after the server has carried it out. */
  datatype Call = Works | Fails(applied: bool)

  datatype Saved = SavedAs(path: Path) | TooLarge | NotAllowed | SaveFailed

  datatype Loaded = Invalid | Unavailable | Missing | Found(data: Bytes)

  /** Which request of a move fails, and whether the server had already carried it out. */
  datatype Fault =
    | NoFault
    | BucketFails(applied: bool)
    | DownloadFails
    | UploadFails(applied: bool)
    | RemoveFails(applied: bool)

  /** The machine's steps that a move with this fault amounts to. */
  function StepsOf(fault: Fault): seq<Step> {
    match fault
    case NoFault => OnePath(0)
    case BucketFails(_) => [Crash(0)]
    case DownloadFails => [Crash(0)]
    case UploadFails(applied) => [Download(0), if applied then UploadThenCrash(0) else Crash(0)]
    case RemoveFails(applied) =>
      [Download(0), Upload(0), if applied then RemoveThenCrash(0) else Crash(0)]
  }

  /** Whether a move reaches the request that fails. */
  predicate Reached(path: Path, public: Bucket, fault: Fault) {
    match fault
    case NoFault => false
    case BucketFails(_) => DocumentPath(path)
    case DownloadFails => DocumentPath(path)
    case UploadFails(_) => DocumentPath(path) && path in public
    case RemoveFails(_) => DocumentPath(path) && path in public
  }

  function Alone(public: Bucket, private: Bucket, path: Path): State {
    State(public, private, map[0 := Worker([path], 0, Fetch)])
  }

  /** Every document that was public is still public with its bytes, or private with them. */
  ghost predicate NothingLost(original: Bucket, public: Bucket, private: Bucket) {
    forall p :: p in original && DocumentPath(p) ==>
      if p in public then public[p] == original[p] else p in private && private[p] == original[p]
  }

  /** Public objects that are no catalogued documents stay, and none appears. */
  ghost predicate OthersStay(original: Bucket, public: Bucket, paths: seq<Path>) {
    && public.Keys <= original.Keys
    && forall p :: p in original && (!DocumentPath(p) || p !in paths) ==>
         p in public && public[p] == original[p]
  }

  lemma OneMoveKeeps(original: Bucket, public: Bucket, private: Bucket,
                     public': Bucket, private': Bucket, paths: seq<Path>, path: Path)
    requires NothingLost(original, public, private) && OthersStay(original, public, paths)
    requires path in paths
    requires public' == public || (DocumentPath(path) && public' == public - {path})
    requires private' == private || (path in public && private' == private[path := public[path]])
    requires path in public && path !in public' ==> path in private' && private'[path] == public[path]
    ensures NothingLost(original, public', private') && OthersStay(original, public', paths)
  {
    hide DocumentPath;
  }

  class SupabaseStorage {
    var public: Bucket
    var private: Bucket
    var access: Access
    var privateBucketReady: bool

    /** Once the adapter holds the private bucket to be ready, it is locked. */
    ghost predicate Valid()
      reads this
    {
      privateBucketReady ==> access == Locked
    }

    constructor (public: Bucket, private: Bucket, access: Access)
      ensures this.public == public && this.private == private && this.access == access
      ensures Valid() && !privateBucketReady
    {
      this.public, this.private, this.access, privateBucketReady := public, private, access, false;
    }

    /** Creates the private bucket, or locks the one that is there, on first use. */
    method PrivateBucket(call: Call) returns (ok: bool)
      requires Valid()
      modifies this`access, this`privateBucketReady
      ensures Valid() && ok == privateBucketReady == (old(privateBucketReady) || call.Works?)
      ensures access == if old(privateBucketReady) || call == Fails(false) then old(access) else Locked
      ensures ok ==> access == Locked
    {
      if !privateBucketReady {
        if call == Fails(false) { return false; }
        access := Locked;
        if call == Fails(true) { return false; }
        privateBucketReady := true;
      }
      ok := true;
    }

    /** Moves one legacy document. Run alone, it is exactly the machine's worker; a fault that is
        not reached changes nothing. */
    method EnsurePrivate(path: Path, fault: Fault) returns (ok: bool)
      requires Valid()
      modifies this
      ensures Valid() && (private != old(private) || old(access) == Locked ==> access == Locked)
      ensures ok == !(Reached(path, old(public), fault) && !(fault.BucketFails? && old(privateBucketReady)))
      ensures var run := Run(Alone(old(public), old(private), path), StepsOf(if ok then NoFault else fault));
        public == run.public && private == run.private
      ensures old(privateBucketReady) ==> privateBucketReady
      ensures ok && SplitOn(path, '/')[0] in DOCUMENT_NAMESPACES ==>
                path !in public && (path in old(public) ==> path in private && private[path] == old(public)[path])
    {
      DocumentPathByFirstPart(path, "", "");
      hide DocumentPath, SplitOn;
      AloneMoves(public, private, path, fault);
      if !DocumentPath(path) { return true; }
      var ready := PrivateBucket(if fault.BucketFails? then Fails(fault.applied) else Works);
      if !ready { return false; }
      if fault.DownloadFails? { return false; }
      if path !in public { return true; }
      var data := public[path];
      if fault.UploadFails? && !fault.applied { return false; }
      private := private[path := data];
      if fault.UploadFails? { return false; }
      if fault.RemoveFails? && !fault.applied { return false; }
      public := public - {path};
      if fault.RemoveFails? { return false; }
      ok := true;
    }

    /** The start-up loop over the catalogued paths; the first failure ends it, and the
        application starts anyway. */
    method MoveCatalogued(paths: seq<Path>, faults: seq<Fault>) returns (moved: nat)
      requires Valid() && |faults| == |paths|
      modifies this
      ensures Valid() && (private != old(private) ==> access == Locked)
      ensures moved <= |paths|
      ensures moved < |paths| ==> !faults[moved].NoFault? && DocumentPath(paths[moved])
      ensures forall k :: 0 <= k < moved && DocumentPath(paths[k]) ==> paths[k] !in public
      ensures NothingLost(old(public), public, private)
      ensures OthersStay(old(public), public, paths)
    {
      hide DocumentPath, NothingLost, OthersStay, Run, StepsOf;
      NothingMoved(public, private, paths);
      moved := 0;
      while moved < |paths|
        invariant moved <= |paths| && Valid() && (private != old(private) ==> access == Locked)
        invariant forall k :: 0 <= k < moved && DocumentPath(paths[k]) ==> paths[k] !in public
        invariant NothingLost(old(public), public, private)
        invariant OthersStay(old(public), public, paths)
      {
        ghost var before := (public, private);
        AloneMoves(public, private, paths[moved], faults[moved]);
        var ok := EnsurePrivate(paths[moved], faults[moved]);
        OneMoveKeeps(old(public), before.0, before.1, public, private, paths, paths[moved]);
        if !ok { return; }
        moved := moved + 1;
      }
    }

    /** Uploads under a fresh name, to the bucket of the name's namespace. The extension is that of the
        client's file name, in lower case. */
    method Save(namespace: string, data: Bytes, extension: string, freshName: string, maxBytes: nat,
                prepare: Call, upload: Call) returns (saved: Saved)
      requires Valid()
      requires var path := Under(namespace, freshName + extension); path !in public && path !in private
      modifies this
      ensures Valid() && (private != old(private) ==> access == Locked)
      ensures saved.TooLarge? <==> |data| > maxBytes
      ensures saved.NotAllowed? <==>
                |data| <= maxBytes && extension !in ALLOWED_EXTENSIONS && !("documents/" <= namespace)
      ensures var path := Under(namespace, freshName + extension);
        var st := State(old(public), old(private), map[]);
        var after := Next(st, BucketMigration.Save(path, data));
        && (saved.SavedAs? ==> saved.path == path && public == after.public && private == after.private)
        && (saved.TooLarge? || saved.NotAllowed? ==> public == old(public) && private == old(private))
        && (saved.SaveFailed? ==> (public == old(public) && private == old(private))
                                  || (upload == Fails(true) && public == after.public && private == after.private))
      ensures saved.SavedAs? ==>
        if SplitOn(saved.path, '/')[0] in DOCUMENT_NAMESPACES
        then private == old(private)[saved.path := data] && public == old(public)
        else public == old(public)[saved.path := data] && private == old(private)
      ensures upload.Works? && (prepare.Works? || old(privateBucketReady)) ==> !saved.SaveFailed?
    {
      DocumentPathByFirstPart(Under(namespace, freshName + extension), "", "");
      hide Under, DocumentPath, SplitOn;
      if |data| > maxBytes { return TooLarge; }
      if extension !in ALLOWED_EXTENSIONS && !("documents/" <= namespace) { return NotAllowed; }
      var path := Under(namespace, freshName + extension);
      if DocumentPath(path) {
        var ready := PrivateBucket(prepare);
        if !ready { return SaveFailed; }
        if upload == Fails(false) { return SaveFailed; }
        private := private[path := data];
      } else {
        if upload == Fails(false) { return SaveFailed; }
        public := public[path := data];
      }
      saved := if upload.Works? then SavedAs(path) else SaveFailed;
    }

    /** Refuses paths that leave the storage root; otherwise downloads the normalized path from the
        bucket of the path's namespace only. */
    method Download(path: Path, prepare: Call) returns (loaded: Loaded)
      requires Valid()
      modifies this`access, this`privateBucketReady
      ensures Valid()
      ensures loaded.Unavailable? ==> DocumentPath(path) && !prepare.Works? && !Refused(path)
      ensures !loaded.Unavailable? ==> loaded == Lookup(public, private, path)
    {
      hide DocumentPath, AsPosix, Refused;
      if Refused(path) { return Invalid; }
      if DocumentPath(path) {
        var ready := PrivateBucket(prepare);
        if !ready { return Unavailable; }
      }
      var bucket := if DocumentPath(path) then private else public;
      var key := AsPosix(path);
      loaded := if key in bucket then Found(bucket[key]) else Missing;
    }

    /** Removes a file from the bucket of its namespace; every error is swallowed. */
    method Delete(path: Path, prepare: Call, remove: Call)
      requires Valid()
      modifies this
      ensures Valid()
      ensures if DocumentPath(path) then public == old(public) else private == old(private)
      ensures public == old(public) || public == old(public) - {path}
      ensures private == old(private) || private == old(private) - {path}
      ensures prepare.Works? && remove.Works? ==> path !in if DocumentPath(path) then private else public
    {
      hide DocumentPath;
      if DocumentPath(path) {
        var ready := PrivateBucket(prepare);
        if !ready || remove == Fails(false) { return; }
        private := private - {path};
      } else {
        if remove == Fails(false) { return; }
        public := public - {path};
      }
    }
  }

  lemma NothingMoved(public: Bucket, private: Bucket, paths: seq<Path>)
    ensures NothingLost(public, public, private) && OthersStay(public, public, paths)
  {
  }

  predicate Refused(path: Path) {
    IsAbsolute(path) || ".." in Parts(path)
  }

  /** What a download finds: the normalized path, in the bucket of the path as it was given. */
  function Lookup(public: Bucket, private: Bucket, path: Path): Loaded {
    var bucket, key := if DocumentPath(path) then private else public, AsPosix(path);
    if Refused(path) then Invalid
    else if key in bucket then Found(bucket[key])
    else Missing
  }

  /** Whatever the rest of a path is, a leading slash or a parent part has it refused. */
  lemma ParentPartsAreRefused(public: Bucket, private: Bucket, path: Path)
    ensures Lookup(public, private, path) == Invalid <==>
            (path != "" && path[0] == '/') || ".." in SplitOn(path, '/')
  {
    KeptAre(SplitOn(path, '/'));
    hide SplitOn, AsPosix, DocumentPath, KeptOf;
  }

  /** What is saved can be downloaded under the path the caller was given, with the same bytes, if and
      only if the namespace is relative and has no parent part; otherwise the path is refused. */
  lemma SavedIsReadBack(public: Bucket, private: Bucket, namespace: string, name: string, data: Bytes)
    requires Kept(name) && name != ".." && '/' !in name
    requires var path := Under(namespace, name); path !in public && path !in private
    ensures var path := Under(namespace, name);
      var after := Next(State(public, private, map[]), BucketMigration.Save(path, data));
      Lookup(after.public, after.private, path) == if Refused(namespace) then Invalid else Found(data)
  {
    UnderIsNormal(namespace, name);
    hide Under, AsPosix, DocumentPath, Parts, IsAbsolute;
  }

  /** For any other path of proper parts, a download looks where the migration's reader does. */
  lemma DownloadOfClean(public: Bucket, private: Bucket, path: Path)
    requires Clean(path)
    ensures var found := Resolve(State(public, private, map[]), path);
      Lookup(public, private, path) ==
        if ".." in Parts(path) then Invalid
        else if found.Some? then Found(found.value)
        else Missing
  {
    CleanIsKept(path);
    hide AsPosix, DocumentPath, Parts;
  }

  lemma RunTwo(st: State, a: Step, b: Step)
    ensures Run(st, [a, b]) == Next(Next(st, a), b)
    ensures Run(st, [a]) == Next(st, a)
  {
    assert [a, b][..1] == [a] && [a][..0] == [];
    assert Run(st, [a]) == Next(Run(st, []), a);
  }

  /** What a failed move leaves: the document is copied, or copied and removed, or untouched. */
  lemma FaultyMoves(st: State, fault: Fault)
    requires Busy(st, 0) && st.workers[0].stage.Fetch?
    requires Reached(Current(st, 0), st.public, fault)
    ensures var after, p := Run(st, StepsOf(fault)), Current(st, 0);
      && after.private ==
           (if fault == UploadFails(true) || fault.RemoveFails? then st.private[p := st.public[p]] else st.private)
      && after.public == (if fault == RemoveFails(true) then st.public - {p} else st.public)
  {
    hide DocumentPath;
    var fetched := Next(st, Download(0));
    match fault
    case BucketFails(_) => RunTwo(st, Crash(0), Crash(0));
    case DownloadFails => RunTwo(st, Crash(0), Crash(0));
    case UploadFails(applied) =>
      assert Current(fetched, 0) == Current(st, 0);
      RunTwo(st, Download(0), if applied then UploadThenCrash(0) else Crash(0));
    case RemoveFails(applied) =>
      assert Current(fetched, 0) == Current(st, 0);
      var sent := Next(fetched, Upload(0));
      assert sent.workers == SetStage(st, 0, Erase);
      RunThree(st, Download(0), Upload(0), if applied then RemoveThenCrash(0) else Crash(0));
  }

  lemma AloneMoves(public: Bucket, private: Bucket, path: Path, fault: Fault)
    ensures var after := Run(Alone(public, private, path), StepsOf(NoFault));
      if DocumentPath(path) && path in public
      then after.public == public - {path} && after.private == private[path := public[path]]
      else after.public == public && after.private == private
    ensures Reached(path, public, fault) ==>
      var after := Run(Alone(public, private, path), StepsOf(fault));
      && after.private ==
           (if fault == UploadFails(true) || fault.RemoveFails? then private[path := public[path]] else private)
      && after.public == (if fault == RemoveFails(true) then public - {path} else public)
  {
    hide DocumentPath;
    var start := Alone(public, private, path);
    assert Busy(start, 0) && Current(start, 0) == path;
    OnePathMoves(start, 0);
    if Reached(path, public, fault) {
      FaultyMoves(start, fault);
    }
  }
}
