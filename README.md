# Crate analysis for the PTX builder, in Dafny

This project models the crate analyser of `ptx-builder` (`src/source.rs`), the part of the
builder that decides what it is about to compile:

- `Crate::analyse` locates a CUDA crate relative to the working directory, checks that
  `Cargo.toml` is a file, reads `package.name` from it, and classifies the crate as
  `Library`, `Binary` or `Mixed` from the `[lib]`/`[[bin]]` sections and the presence of
  `src/lib.rs`/`src/main.rs`. The output file prefix is the name with every `-` turned into `_`.
- `Crate::get_crate_type` resolves the kind to build from the crate's kind and the user's
  optional request.
- `Crate::get_output_path` composes `OUT_DIR / prefix / hex(hash(crate))` and creates that
  directory with all its parents; `Crate::get_hash` feeds the crate to a `DefaultHasher`.

Modules, one file each:

- `Wrappers` (`wrappers.dfy`): `Option`.
- `Paths` (`paths.dfy`): Rust paths as their components, with `Path::new`, `join`, `push`,
  `starts_with` and `ends_with`.
- `Hex` (`hex.dfy`): `format!("{:x}", n)` and its inverse.
- `Errors` (`errors.dfy`): the `BuildErrorKind` variants the analyser raises, and `Result`.
- `Builder` (`builder.dfy`): the user's requested kind, `builder::CrateType`.
- `Files` (`files.dfy`): an abstract filesystem `Disk` (a tree of directories and files plus the
  working directory) with `fs::metadata` and `Path::exists`, and the `FileSystem` object whose
  `CreateDirAll` is `fs::create_dir_all`.
- `Hashing` (`hashing.dfy`): `DefaultHasher` as a recorder of the values fed to it, finished by
  an arbitrary deterministic digest function passed in by the caller.
- `Source` (`source.dfy`): `CrateType`, `Crate`, the manifest facts, and the operations above.

The filesystem, the TOML decoder and the hash digest are inputs: `Analyse` reads a `Disk` (the
filesystem's state, which analysis does not change) and takes the decoder as a function `string -> Option<Manifest>`; `GetHash`,
`OutputPath` and `GetOutputPath` take the digest as a function of the fed values.
`GetOutputPath` changes the `FileSystem` object that holds the `Disk`. `OUT_DIR`
(a compile-time environment variable) is the string parameter `outDir`.

- The output directory depends on the crate alone: the derived `Hash` covers the four `Crate`
  fields (name, path, prefix, kind), not the build profile or the requested kind. A mixed crate
  built as a library and as a binary therefore uses the same directory; the profile
  (`release`/`debug`) only appears in the toolchain's own subdirectories below it.

One difference from the code: `cargo_toml["package"]["name"]` indexes a `toml::Value`, which
panics when `package` or `name` is missing; the model gives `InternalError("Cannot get crate name")`
whenever there is no string `package.name`, missing keys included.

## Model

| member | source | states |
|---|---|---|
| Paths.FromString | src/source.rs:33-37 | `Path::new(s)` is absolute exactly when `s` starts with `/`, and all its components are non-empty, `.`-free and separator-free |
| Paths.Components | src/source.rs:33-37 | every component a path text yields is a normal component |
| Paths.Join | src/source.rs:33-37 | `base.join(p)` is `p` when `p` is absolute, starts with `base` when `p` is relative, and always ends with `p` |
| Paths.JoinRelative | src/source.rs:33-37 | joining a relative path keeps the base's root and has exactly the base's and the joined path's components together, so with `Join`'s contract the result is the base followed by the joined path |
| Paths.Push | src/source.rs:144-145 | `PathBuf::push(s)` is `join` with the path that `s` parses to |
| Paths.PushExtends | src/source.rs:144-145 | pushing an absolute string replaces the path with it; pushing a relative one keeps the path as a prefix and adds exactly the string's components; the result always ends with the pushed path |
| Paths.StartsWith | src/source.rs:210-213 | `starts_with`: the prefix's components, root included, lead the path's; an empty relative prefix leads every path |
| Paths.EndsWith | src/source.rs:186-199 | `ends_with`: an absolute suffix matches only itself; a relative suffix's components close the path's |
| Paths.StartsWithIsJoin | src/source.rs:210-213 | a path starts with a non-empty prefix exactly when it is that prefix joined with the rest of its own components |
| Paths.EndsWithIsJoin | src/source.rs:186-199 | a path ends with an absolute path exactly when it is that path, and with a relative one exactly when it is the rest of its components joined with it |
| Paths.SingleComponent | src/source.rs:144-145 | pushing a string that is one normal component adds exactly that one component |
| Paths.PushComponent | src/source.rs:39 | joining a single normal component onto a path adds exactly that child below it |
| Hex.DigitValue | src/source.rs:145 | each lower-case hex digit has a value below 16 that names it back |
| Hex.LowerHex | src/source.rs:145 | `{:x}` yields a non-empty string of lower-case hex digits with no leading zero |
| Hex.ParseLowerHex | src/source.rs:145 | reading the formatted digits back gives the number formatted |
| Hex.LowerHexInjective | src/source.rs:145 | distinct hashes are formatted as distinct directory names |
| Files.Disk.Metadata | src/source.rs:39-49 | `fs::metadata` finds an entry only for a path that resolves to a location |
| Files.Disk.Exists | src/source.rs:75-77 | `Path::exists`: the path resolves and an entry (or the root) is found there |
| Files.NearestExisting | src/source.rs:147 | finds the nearest location on the way to a path that exists |
| Files.FileSystem.CreateBelow | src/source.rs:147 | creates the missing directories below an existing one down to the target, keeping every existing entry and the tree shape |
| Files.FileSystem.CreateDirAll | src/source.rs:147 | `create_dir_all` succeeds exactly when nothing on the way is a file; on success the path is a directory; an existing directory is no error and changes nothing; only directories on the way are added; a failure changes nothing |
| Files.AncestorsAreDirectories | src/source.rs:147 | in a tree-shaped filesystem, every location above a directory is a directory |
| Files.AddDirectory | src/source.rs:147 | adding a directory below an existing one keeps the filesystem tree-shaped |
| Hashing.DefaultHasher.constructor | src/source.rs:152 | a new hasher has been fed nothing |
| Hashing.DefaultHasher.Write | src/source.rs:153 | feeding a value appends it to what the hasher has been fed |
| Hashing.DefaultHasher.Finish | src/source.rs:155 | `finish` is the digest of everything fed so far |
| Source.Classify | src/source.rs:74-92 | no kind exactly when there is neither a library nor a binary target; otherwise the kind has a library target exactly when `is_library` and a binary one exactly when `is_binary` (lib only gives Library, bin only Binary, both Mixed) |
| Source.ClassifyTargets | src/source.rs:81-92 | classification recovers every kind from its targets |
| Source.ReplaceDashes | src/source.rs:79 | the prefix has the name's length, `_` where the name has `-`, and the name's character everywhere else |
| Source.PrefixHasNoDash | src/source.rs:79 | the prefix contains no `-`, and rewriting it again changes nothing |
| Source.DashFreeUnchanged | src/source.rs:79 | a name without `-` is its own prefix |
| Source.GetCrateType | src/source.rs:108-128 | a successful result is a kind the crate has a target for; with a request it succeeds exactly when the crate has that target and then returns the request, else fails with `InvalidCrateType` naming the request; without a request it succeeds exactly for a non-mixed crate, else fails with `MissingCrateType` |
| Source.UnrequestedKind | src/source.rs:109-114 | without a request a Library crate builds as Library and a Binary crate as Binary |
| Source.CratePath | src/source.rs:33-37 | the joined crate path is absolute and ends with the given path, as the crate-path tests check |
| Source.ManifestPathIsJoin | src/source.rs:39 | the manifest analysis looks up is `Cargo.toml` joined onto the crate path |
| Source.LibEntryPointIsJoin | src/source.rs:74-75 | the library entry point analysis looks for is `src` then `lib.rs` joined onto the crate path |
| Source.MainEntryPointIsJoin | src/source.rs:76-77 | the binary entry point analysis looks for is `src` then `main.rs` joined onto the crate path |
| Source.IsLibrary | src/source.rs:74-75 | `is_library`: the manifest has a `lib` key or `src/lib.rs` exists below the crate |
| Source.IsBinary | src/source.rs:76-77 | `is_binary`: the manifest has a `bin` key or `src/main.rs` exists below the crate |
| Source.Analyse | src/source.rs:32-100 | a failing `current_dir` gives `OtherError`; `InvalidCratePath` exactly when `Cargo.toml` is missing or a directory, carrying the joined path; `OtherError` exactly when the manifest cannot be read or decoded; `InternalError("Cannot get crate name")` exactly when it has no string `package.name` (the code panics instead when `package` or `name` is missing); the "nothing to build" `InternalError` exactly when there is neither target; otherwise a crate with the manifest's name, the joined path, the dash-free prefix and a kind whose targets are `is_library` and `is_binary` |
| Source.HashInputInjective | src/source.rs:21-28 | the derived hash input tells all four fields apart |
| Source.HashCrate | src/source.rs:14-28 | the derived `Hash` feeds name, path, prefix and kind discriminant, in that order |
| Source.GetHash | src/source.rs:151-156 | the hash is the digest of exactly the crate's four fields |
| Source.OutputPath | src/source.rs:141-145 | the output path starts with `OUT_DIR / prefix` and has exactly one more component, the hash in hex |
| Source.OutputPathDeterminesHash | src/source.rs:144-145 | two crates with the same output path have the same hash |
| Source.GetOutputPath | src/source.rs:141-149 | on success the result is the composed output path and it is a directory; every existing entry is kept and the only entries added are directories on the way to the output path; it succeeds exactly when nothing on the way is a file; a failure is `OtherError` and changes nothing; an existing output directory is no error and changes nothing |

## Left out

- The filesystem is abstract: no symbolic links, permissions or races, so `fs::metadata`, `File::open`,
  `read_to_string` and `create_dir_all` fail only for the reasons the model names (a missing entry,
  an unreadable file, a file on the way). A file's unreadability covers both `File::open` and
  `read_to_string` failing; both give `OtherError`.
- Paths: only Unix separators; `.` components are dropped everywhere (Rust keeps a leading one), and
  `..` is looked up as a plain name rather than resolved.
- TOML decoding is the `decode` parameter. The manifest's `packageName` is the outcome of the whole
  lookup `cargo_toml["package"]["name"].as_str()`; the panic that indexing a `toml::Value` with a
  missing key raises in the toml crate is not modelled, since that crate is not part of this model.
- The `DefaultHasher` digest (SipHash) is the `digest` parameter; nothing is claimed about collisions.
  The hash tokens stand for the values each field feeds, not their byte encoding.
- `get_name`, `get_path` and `get_output_file_prefix` are the fields of the `Crate` datatype.
- The rest of the builder (gated check, configuration, toolchain invocation, diagnostics parsing,
  build output and dependencies), the executable runner and its version checks are not part of
  this model; neither are the error kinds only they raise.
