/** Which ignore file `tree` uses, and the ignore test it yields. The
    pattern syntax belongs to the gitignore matcher, which is a parameter
    here (`matcher`): only its answer per path matters to the renderer. */
module Ignore {
  import opened Wrappers
  import opened FileTree

  /** The ignore file in use: the one given explicitly, or `.treeignore` /
      `.gitignore` in the rendered directory. */
  datatype IgnoreFile = Explicit(path: string) | TreeIgnore | GitIgnore

  /** The answers of the `exists()` probes: of the explicitly given file,
      and of `.treeignore` and `.gitignore` in the rendered directory. */
  datatype Probe = Probe(explicitExists: bool, treeignoreExists: bool, gitignoreExists: bool)

  /** An explicitly given file wins even when it is missing (nothing is then
      ignored, and there is no fallback); an empty name counts as none
      given but is not auto-detected either. Without one, `.treeignore` is
      preferred to `.gitignore`, and when neither exists nothing is ignored. */
  function SelectIgnoreFile(ignoreFile: Option<string>, probe: Probe): (r: Option<IgnoreFile>)
    ensures ignoreFile.Some? ==>
              (r.Some? <==> ignoreFile.value != "" && probe.explicitExists)
              && (r.Some? ==> r.value == Explicit(ignoreFile.value))
    ensures ignoreFile.None? ==>
              (r == Some(TreeIgnore) <==> probe.treeignoreExists)
              && (r == Some(GitIgnore) <==> !probe.treeignoreExists && probe.gitignoreExists)
              && (r == None <==> !probe.treeignoreExists && !probe.gitignoreExists)
              && (r.Some? ==> !r.value.Explicit?)
  {
    var chosen: Option<IgnoreFile> :=
      match ignoreFile
      case Some(path) => if path == "" then None else Some(Explicit(path))
      case None =>
        if probe.treeignoreExists then Some(TreeIgnore)
        else if probe.gitignoreExists then Some(GitIgnore)
        else None;
    if chosen.Some? && Exists(chosen.value, probe) then chosen else None
  }

  /** `Path(ignore_file).exists()` for the chosen file. */
  predicate Exists(f: IgnoreFile, probe: Probe)
  {
    match f
    case Explicit(_) => probe.explicitExists
    case TreeIgnore => probe.treeignoreExists
    case GitIgnore => probe.gitignoreExists
  }

  /** The ignore test: the matcher of the chosen file, else `no_ignore`. */
  function IgnoreTest(chosen: Option<IgnoreFile>, matcher: IgnoreFile -> Path -> bool): (ignored: Path -> bool)
    ensures chosen.None? ==> forall p :: !ignored(p)
    ensures chosen.Some? ==> forall p :: ignored(p) == matcher(chosen.value)(p)
  {
    if chosen.Some? then matcher(chosen.value) else (p: Path) => false
  }
}
