/**
 * The import fixers of the top-level prehook library. Each fixer reads one
 * Pyret file at construction, rewrites its text in memory, and writes it back
 * in `Finalize`. The file's text is passed in; what `Finalize` writes is kept in
 * `written`. `os.path.relpath` (which also depends on the working directory) is
 * a function given to the constructor.
 */
module PrehookLib {
  import opened Wrappers
  import opened Paths
  import opened Rewrite

  /** `finalize` of `ImportFixer`: shared-gdrive references first, then gdrive-js, each at most 8 times. */
  function FinalizeText(content: string, relStencil: string): string
  {
    ResolveScriptText(ResolveSharedText(content, relStencil), relStencil)
  }

  /** Rewrites the my-gdrive, shared-gdrive and gdrive-js references of one file into `file(...)` references. */
  class ImportFixer {
    const targetPath: string
    const targetDir: string
    const stencilDir: string
    const relStencilDir: string
    /** `os.path.relpath(path, start)`. */
    const relpath: (string, string) -> string
    /** The text as rewritten so far. */
    var content: string
    /** What was last written to `targetPath`, if anything. */
    var written: Option<string>

    constructor (targetPath: string, stencilDir: string, fileText: string, relpath: (string, string) -> string)
      ensures this.targetPath == targetPath && targetDir == Dirname(targetPath) && this.stencilDir == stencilDir
      ensures this.relpath == relpath && relStencilDir == relpath(stencilDir, Dirname(targetPath))
      ensures content == fileText && written == None
    {
      this.targetPath := targetPath;
      targetDir := Dirname(targetPath);
      this.stencilDir := stencilDir;
      this.relpath := relpath;
      relStencilDir := relpath(stencilDir, Dirname(targetPath));
      content := fileText;
      written := None;
    }

    /**
     * `fix_import`: references to `-NAME.arr` through my-gdrive point to
     * `location`, taken relative to the file's directory. Nothing is written.
     */
    method FixImport(name: string, location: string, filename: Option<string>)
      modifies this
      ensures content == FixImportText(old(content), name, relpath(location, targetDir), filename)
      ensures written == old(written)
    {
      content := FixImportText(content, name, relpath(location, targetDir), filename);
    }

    /** `finalize`: resolves shared-gdrive and gdrive-js references under the stencil directory, then writes the file. */
    method Finalize()
      modifies this
      ensures content == FinalizeText(old(content), relStencilDir)
      ensures written == Some(content)
    {
      content := ResolveSharedText(content, relStencilDir);
      content := ResolveScriptText(content, relStencilDir);
      written := Some(content);
    }
  }

  /** Adds a provide line after the context line of one file, and resolves its shared-gdrive references. */
  class CPOProvideFixer {
    const targetPath: string
    const targetDir: string
    const stencilDir: string
    const relStencilDir: string
    const relpath: (string, string) -> string
    var content: string
    var written: Option<string>

    constructor (targetPath: string, stencilDir: string, fileText: string, relpath: (string, string) -> string)
      ensures this.targetPath == targetPath && targetDir == Dirname(targetPath) && this.stencilDir == stencilDir
      ensures this.relpath == relpath && relStencilDir == relpath(stencilDir, Dirname(targetPath))
      ensures content == fileText && written == None
    {
      this.targetPath := targetPath;
      targetDir := Dirname(targetPath);
      this.stencilDir := stencilDir;
      this.relpath := relpath;
      relStencilDir := relpath(stencilDir, Dirname(targetPath));
      content := fileText;
      written := None;
    }

    /** `fix_provide`: `location` plays no part in the result. */
    method FixProvide(names: string, location: string)
      modifies this
      ensures content == ProvideText(old(content), names)
      ensures written == old(written)
    {
      content := ProvideText(content, names);
    }

    /** `finalize`: resolves shared-gdrive references only, then writes the file. */
    method Finalize()
      modifies this
      ensures content == ResolveSharedText(old(content), relStencilDir)
      ensures written == Some(content)
    {
      content := ResolveSharedText(content, relStencilDir);
      written := Some(content);
    }
  }

  /** A file with no shared-gdrive and no gdrive-js reference is written back exactly as read. */
  lemma FinalizeKeepsUnreferencedText(content: string, relStencil: string)
    requires forall k :: 0 <= k <= |content| ==> Match(SharedGdrive, content, k).None?
    requires forall k :: 0 <= k <= |content| ==> Match(GdriveJs, content, k).None?
    ensures FinalizeText(content, relStencil) == content
  {
    NoMatchUnchanged(content, SharedGdrive, FileTemplate(relStencil, ""), ReMultiline);
    NoMatchUnchanged(content, GdriveJs, FileTemplate(relStencil, ".arr"), ReMultiline);
  }

  /** A file with no my-gdrive reference to `-NAME.arr` is not changed by `fix_import`. */
  lemma FixImportKeepsUnreferencedText(content: string, name: string, relLoc: string, filename: Option<string>)
    requires forall k :: 0 <= k <= |content| ==> Match(MyGdrive(name), content, k).None?
    ensures FixImportText(content, name, relLoc, filename) == content
  {
    NoMatchUnchanged(content, MyGdrive(name), ImportTemplate(relLoc, filename), 0);
  }
}
