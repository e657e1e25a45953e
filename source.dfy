/**
 * The crate analyser of the PTX builder: it locates a CUDA crate on disk,
 * reads its name and kind from `Cargo.toml` and the conventional entry
 * points, decides which kind to build, and names the directory where the
 * build output is kept.
 */
module Source {
  import opened Wrappers
  import opened Paths
  import opened Hex
  import opened Errors
  import opened Files
  import opened Hashing
  import Builder

  /** The targets a crate has: a library, a binary, or both. */
  datatype CrateType = Library | Binary | Mixed

  /** Information about a CUDA crate; `get_name`, `get_path` and `get_output_file_prefix` read its fields. */
  datatype Crate = Crate(name: string, path: Path, outputFilePrefix: string, crateType: CrateType)

  /**
   * What the analyser reads from the decoded `Cargo.toml`: `package.name` when
   * it is a string, and whether the top-level keys `lib` and `bin` exist.
   */
  datatype Manifest = Manifest(packageName: Option<string>, hasLib: bool, hasBin: bool)

  const MissingNameMessage: string := "Cannot get crate name"
  const NothingToBuildMessage: string :=
    "Unable to find neither `src/lib.rs` nor `src/main.rs` nor a [lib] nor [[bin]] section in `Cargo.toml`"

  predicate HasLibrary(t: CrateType) {
    t == Library || t == Mixed
  }

  predicate HasBinary(t: CrateType) {
    t == Binary || t == Mixed
  }

  // ---------------------------------------------------------------------------
  // Kind classification and the output file prefix

  /** The kind of a crate that has a library target exactly when `isLibrary` and a binary one exactly when `isBinary`. */
  function Classify(isLibrary: bool, isBinary: bool): (r: Option<CrateType>)
    ensures r.None? <==> !isLibrary && !isBinary
    ensures r.Some? ==> HasLibrary(r.value) == isLibrary && HasBinary(r.value) == isBinary
  {
    match (isBinary, isLibrary)
    case (false, true) => Some(Library)
    case (true, false) => Some(Binary)
    case (true, true) => Some(Mixed)
    case (false, false) => None
  }

  /** Classification recovers every kind from the targets it has. */
  lemma ClassifyTargets(t: CrateType)
    ensures Classify(HasLibrary(t), HasBinary(t)) == Some(t)
  {
  }

  /** `name.replace('-', "_")`: every `-` becomes `_`, every other character stays. */
  function ReplaceDashes(s: string): (r: string)
    ensures |r| == |s|
    ensures forall i :: 0 <= i < |s| ==> r[i] == (if s[i] == '-' then '_' else s[i])
  {
    if s == [] then [] else [if s[0] == '-' then '_' else s[0]] + ReplaceDashes(s[1..])
  }

  /** The prefix has no `-` left, and rewriting it again changes nothing. */
  lemma PrefixHasNoDash(s: string)
    ensures '-' !in ReplaceDashes(s)
    ensures ReplaceDashes(ReplaceDashes(s)) == ReplaceDashes(s)
  {
  }

  /** A name without `-` is its own prefix. */
  lemma DashFreeUnchanged(s: string)
    requires '-' !in s
    ensures ReplaceDashes(s) == s
  {
  }

  // ---------------------------------------------------------------------------
  // Kind resolution

  /** Whether a crate of kind `t` has the target that building `k` needs. */
  predicate Builds(t: CrateType, k: Builder.CrateType) {
    if k == Builder.Library then HasLibrary(t) else HasBinary(t)
  }

  /** The name of a requested kind, as the error for a mismatched request carries it. */
  function KindName(k: Builder.CrateType): string {
    if k == Builder.Library then "Library" else "Binary"
  }

  /** `Crate::get_crate_type`: the kind to build, given the kind the user asked for, if any. */
  function GetCrateType(c: Crate, chosen: Option<Builder.CrateType>): (r: Result<Builder.CrateType>)
    ensures r.Ok? ==> Builds(c.crateType, r.value)
    ensures r.Ok? && chosen.Some? ==> r.value == chosen.value
    ensures chosen.Some? ==> (r.Ok? <==> Builds(c.crateType, chosen.value))
    ensures chosen.Some? && r.Err? ==> r.error == InvalidCrateType(KindName(chosen.value))
    ensures chosen.None? ==> (r.Ok? <==> c.crateType != Mixed)
    ensures chosen.None? && r.Err? ==> r.error == MissingCrateType
  {
    match (c.crateType, chosen)
    case (Library, Some(Library)) => Ok(Builder.Library)
    case (Library, None) => Ok(Builder.Library)
    case (Mixed, Some(Library)) => Ok(Builder.Library)
    case (Binary, Some(Binary)) => Ok(Builder.Binary)
    case (Binary, None) => Ok(Builder.Binary)
    case (Mixed, Some(Binary)) => Ok(Builder.Binary)
    case (Mixed, None) => Err(MissingCrateType)
    case (Library, Some(Binary)) => Err(InvalidCrateType("Binary"))
    case (Binary, Some(Library)) => Err(InvalidCrateType("Library"))
  }

  /** Without a request, a single-target crate is built as what it is. */
  lemma UnrequestedKind(c: Crate)
    requires c.crateType != Mixed
    ensures GetCrateType(c, None) == Ok(if c.crateType == Library then Builder.Library else Builder.Binary)
  {
  }

  // ---------------------------------------------------------------------------
  // Analysis

  /** `env::current_dir()?.join(input)`: the crate's location. */
  function CratePath(cwd: seq<string>, input: string): (p: Path)
    ensures p.absolute
    ensures EndsWith(p, FromString(input))
  {
    Join(Path(true, cwd), FromString(input))
  }

  /** `path.join("Cargo.toml")`. */
  function ManifestPath(path: Path): Path {
    Child(path, "Cargo.toml")
  }

  /** `path.join("src").join("lib.rs")`. */
  function LibEntryPoint(path: Path): Path {
    Child(Child(path, "src"), "lib.rs")
  }

  /** `path.join("src").join("main.rs")`. */
  function MainEntryPoint(path: Path): Path {
    Child(Child(path, "src"), "main.rs")
  }

  /** The manifest analysis reads is `Cargo.toml` joined onto the crate path. */
  lemma ManifestPathIsJoin(path: Path)
    ensures ManifestPath(path) == Push(path, "Cargo.toml")
  {
    PushComponent(path, "Cargo.toml");
  }

  /** The library entry point is `src` and then `lib.rs` joined onto the crate path. */
  lemma LibEntryPointIsJoin(path: Path)
    ensures LibEntryPoint(path) == Push(Push(path, "src"), "lib.rs")
  {
    PushComponent(path, "src");
    PushComponent(Child(path, "src"), "lib.rs");
  }

  /** The binary entry point is `src` and then `main.rs` joined onto the crate path. */
  lemma MainEntryPointIsJoin(path: Path)
    ensures MainEntryPoint(path) == Push(Push(path, "src"), "main.rs")
  {
    PushComponent(path, "src");
    PushComponent(Child(path, "src"), "main.rs");
  }

  /** The manifest decoded from the file `entry`, or `None` when it is no file, cannot be read, or does not decode. */
  function ReadManifest(entry: Option<Entry>, decode: string -> Option<Manifest>): Option<Manifest> {
    match entry
    case Some(File(Some(text))) => decode(text)
    case _ => None
  }

  /** Whether `Cargo.toml` exists at `path` and is a file. */
  predicate ManifestIsFile(disk: Disk, path: Path)
  {
    var metadata := disk.Metadata(ManifestPath(path));
    metadata.Some? && metadata.value.File?
  }

  /** The manifest of the crate at `path`, when it is a file that can be read and decoded. */
  function ManifestAt(disk: Disk, decode: string -> Option<Manifest>, path: Path): Option<Manifest>
  {
    ReadManifest(disk.Metadata(ManifestPath(path)), decode)
  }

  /** Whether the crate at `path` has a manifest with a string `package.name`. */
  predicate Named(disk: Disk, decode: string -> Option<Manifest>, path: Path)
  {
    ManifestAt(disk, decode, path).Some? && ManifestAt(disk, decode, path).value.packageName.Some?
  }

  /** `is_library`: a `lib` key in the manifest, or a `src/lib.rs`. */
  predicate IsLibrary(disk: Disk, decode: string -> Option<Manifest>, path: Path)
    requires ManifestAt(disk, decode, path).Some?
  {
    ManifestAt(disk, decode, path).value.hasLib || disk.Exists(LibEntryPoint(path))
  }

  /** `is_binary`: a `bin` key in the manifest, or a `src/main.rs`. */
  predicate IsBinary(disk: Disk, decode: string -> Option<Manifest>, path: Path)
    requires ManifestAt(disk, decode, path).Some?
  {
    ManifestAt(disk, decode, path).value.hasBin || disk.Exists(MainEntryPoint(path))
  }

  /**
   * `Crate::analyse`: locates the crate at `input` (relative to the working
   * directory) on `disk`. `decode` is the TOML decoder; it yields `None` when
   * the text is not a valid document.
   */
  method Analyse(disk: Disk, decode: string -> Option<Manifest>, input: string) returns (r: Result<Crate>)
    ensures disk.cwd.None? ==> r == Err(OtherError)
    ensures disk.cwd.Some? ==>
      (r.Err? && r.error.InvalidCratePath? <==> !ManifestIsFile(disk, CratePath(disk.cwd.value, input)))
    ensures disk.cwd.Some? && r.Err? && r.error.InvalidCratePath? ==> r.error.path == CratePath(disk.cwd.value, input)
    ensures disk.cwd.Some? ==>
      (r == Err(OtherError) <==>
        ManifestIsFile(disk, CratePath(disk.cwd.value, input)) && ManifestAt(disk, decode, CratePath(disk.cwd.value, input)).None?)
    ensures disk.cwd.Some? ==>
      (r == Err(InternalError(MissingNameMessage)) <==>
        ManifestAt(disk, decode, CratePath(disk.cwd.value, input)).Some? && !Named(disk, decode, CratePath(disk.cwd.value, input)))
    ensures disk.cwd.Some? ==>
      (r == Err(InternalError(NothingToBuildMessage)) <==>
        Named(disk, decode, CratePath(disk.cwd.value, input)) &&
        !IsLibrary(disk, decode, CratePath(disk.cwd.value, input)) && !IsBinary(disk, decode, CratePath(disk.cwd.value, input)))
    ensures disk.cwd.Some? ==>
      (r.Ok? <==>
        Named(disk, decode, CratePath(disk.cwd.value, input)) &&
        (IsLibrary(disk, decode, CratePath(disk.cwd.value, input)) || IsBinary(disk, decode, CratePath(disk.cwd.value, input))))
    ensures disk.cwd.Some? && Named(disk, decode, CratePath(disk.cwd.value, input)) && r.Ok? ==>
      r.value.name == ManifestAt(disk, decode, CratePath(disk.cwd.value, input)).value.packageName.value &&
      r.value.path == CratePath(disk.cwd.value, input) &&
      r.value.outputFilePrefix == ReplaceDashes(r.value.name) &&
      HasLibrary(r.value.crateType) == IsLibrary(disk, decode, CratePath(disk.cwd.value, input)) &&
      HasBinary(r.value.crateType) == IsBinary(disk, decode, CratePath(disk.cwd.value, input))
  {
    if disk.cwd.None? {
      return Err(OtherError);
    }
    var path := CratePath(disk.cwd.value, input);
    var metadata := disk.Metadata(ManifestPath(path));
    if metadata.None? || metadata.value.Directory? {
      return Err(InvalidCratePath(path));
    }
    var contents := metadata.value.text;
    if contents.None? {
      return Err(OtherError);
    }
    var cargoToml := decode(contents.value);
    if cargoToml.None? {
      return Err(OtherError);
    }
    var name := cargoToml.value.packageName;
    if name.None? {
      return Err(InternalError(MissingNameMessage));
    }
    var isLibrary := cargoToml.value.hasLib || disk.Exists(LibEntryPoint(path));
    var isBinary := cargoToml.value.hasBin || disk.Exists(MainEntryPoint(path));
    var outputFilePrefix := ReplaceDashes(name.value);
    var crateType := Classify(isLibrary, isBinary);
    if crateType.None? {
      return Err(InternalError(NothingToBuildMessage));
    }
    return Ok(Crate(name.value, path, outputFilePrefix, crateType.value));
  }

  // ---------------------------------------------------------------------------
  // Hashing and the output path

  function KindIndex(t: CrateType): nat {
    match t
    case Library => 0
    case Binary => 1
    case Mixed => 2
  }

  /** What `#[derive(Hash)]` on `Crate` feeds a hasher: the four fields in declaration order. */
  function HashInput(c: Crate): seq<HashToken> {
    [Str(c.name), PathValue(c.path), Str(c.outputFilePrefix), Discriminant(KindIndex(c.crateType))]
  }

  /** The hash input tells every field of a crate apart: crates differing in any field feed different values. */
  lemma HashInputInjective(a: Crate, b: Crate)
    requires HashInput(a) == HashInput(b)
    ensures a == b
  {
  }

  /** `<Crate as Hash>::hash`. */
  method HashCrate(c: Crate, hasher: DefaultHasher)
    modifies hasher
    ensures hasher.written == old(hasher.written) + HashInput(c)
  {
    hasher.Write(Str(c.name));
    hasher.Write(PathValue(c.path));
    hasher.Write(Str(c.outputFilePrefix));
    hasher.Write(Discriminant(KindIndex(c.crateType)));
  }

  /** `Crate::get_hash`: a fresh `DefaultHasher` fed the crate. */
  method GetHash(c: Crate, digest: seq<HashToken> -> U64) returns (h: U64)
    ensures h == digest(HashInput(c))
  {
    var hasher := new DefaultHasher();
    HashCrate(c, hasher);
    assert hasher.written == HashInput(c);
    h := hasher.Finish(digest);
  }

  /** `OUT_DIR / output_file_prefix / hex(get_hash())`: the hash, in hexadecimal, is one last component below `OUT_DIR / prefix`. */
  function OutputPath(outDir: string, c: Crate, digest: seq<HashToken> -> U64): (p: Path)
    ensures StartsWith(p, Push(FromString(outDir), c.outputFilePrefix))
    ensures p.components == Push(FromString(outDir), c.outputFilePrefix).components + [LowerHex(digest(HashInput(c)))]
  {
    var hex := LowerHex(digest(HashInput(c)));
    SingleComponent(hex);
    Push(Push(FromString(outDir), c.outputFilePrefix), hex)
  }

  /** The output directory's name gives back the crate's hash. */
  lemma OutputPathDeterminesHash(outDir: string, a: Crate, b: Crate, digest: seq<HashToken> -> U64)
    requires OutputPath(outDir, a, digest) == OutputPath(outDir, b, digest)
    ensures digest(HashInput(a)) == digest(HashInput(b))
  {
    var p := OutputPath(outDir, a, digest);
    assert p.components[|p.components| - 1] == LowerHex(digest(HashInput(a)));
    assert p.components[|p.components| - 1] == LowerHex(digest(HashInput(b)));
    LowerHexInjective(digest(HashInput(a)), digest(HashInput(b)));
  }

  /**
   * `Crate::get_output_path`: composes the output path and creates it with all
   * its parents; an existing directory there is no error.
   */
  method GetOutputPath(c: Crate, outDir: string, digest: seq<HashToken> -> U64, fs: FileSystem) returns (r: Result<Path>)
    requires fs.Valid()
    modifies fs
    ensures fs.Valid() && fs.disk.cwd == old(fs.disk.cwd)
    ensures r.Ok? ==> r.value == OutputPath(outDir, c, digest) && fs.disk.IsDirectory(r.value)
    ensures r.Err? ==> r.error == OtherError && fs.disk.entries == old(fs.disk.entries)
    ensures r.Ok? <==>
      var target := fs.disk.Resolve(OutputPath(outDir, c, digest));
      target.Some? && NoFileOnWay(old(fs.disk.entries), target.value)
    ensures old(fs.disk.IsDirectory(OutputPath(outDir, c, digest))) ==> r.Ok? && fs.disk.entries == old(fs.disk.entries)
    ensures forall q | q in old(fs.disk.entries) :: q in fs.disk.entries && fs.disk.entries[q] == old(fs.disk.entries)[q]
    ensures forall q | q in fs.disk.entries && q !in old(fs.disk.entries) ::
      var target := fs.disk.Resolve(OutputPath(outDir, c, digest));
      fs.disk.entries[q] == Directory && target.Some? && q != [] && |q| <= |target.value| && q == target.value[..|q|]
  {
    var path := FromString(outDir);
    path := Push(path, c.outputFilePrefix);
    var hash := GetHash(c, digest);
    var hex := LowerHex(hash);
    SingleComponent(hex);
    path := Push(path, hex);
    var created := fs.CreateDirAll(path);
    if !created {
      return Err(OtherError);
    }
    return Ok(path);
  }
}
