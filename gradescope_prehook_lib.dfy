/**
 * The import fixer of the Gradescope prehook library: the same `fix_import`
 * as the top-level one, but `finalize` resolves shared-gdrive references only,
 * so gdrive-js references stay in the file.
 */
module GradescopePrehookLib {
  import opened Wrappers
  import opened Paths
  import opened Rewrite

  class ImportFixer {
    const targetPath: string
    const targetDir: string
    const stencilDir: string
    const relStencilDir: string
    /** `os.path.relpath(path, start)`. */
    const relpath: (string, string) -> string
    /** The text as rewritten so far; the file itself is read only here, at construction. */
    var content: string
    /** What was last written to `targetPath`, if anything. */
    var written: Option<string>

    constructor (targetPath: string, stencilDir: string, fileText: string, relpath: (string, string) -> string)
      ensures this.targetPath == targetPath && targetDir == Dirname(targetPath) && this.stencilDir == stencilDir
      ensures this.relpath == relpath && relStencilDir == relpath(stencilDir, Dirname(targetPath))
      ensures content == fileText && written == None
    {
      this.targetPath := targetPath;
      targetDir := Dirname(targetPath);
      this.stencilDir := stencilDir;
      this.relpath := relpath;
      relStencilDir := relpath(stencilDir, Dirname(targetPath));
      content := fileText;
      written := None;
    }

    /** `fix_import`: changes only the text in memory. */
    method FixImport(name: string, location: string, filename: Option<string>)
      modifies this
      ensures content == FixImportText(old(content), name, relpath(location, targetDir), filename)
      ensures written == old(written)
    {
      content := FixImportText(content, name, relpath(location, targetDir), filename);
    }

    /** `finalize`: resolves at most 8 shared-gdrive references, then writes the file. */
    method Finalize()
      modifies this
      ensures content == ResolveSharedText(old(content), relStencilDir)
      ensures written == Some(content)
    {
      content := ResolveSharedText(content, relStencilDir);
      written := Some(content);
    }
  }

  /**
   * Without a shared-gdrive reference `finalize` writes the text back as it is,
   * whatever gdrive-js references it holds.
   */
  lemma FinalizeKeepsScriptReferences(content: string, relStencil: string)
    requires forall k :: 0 <= k <= |content| ==> Match(SharedGdrive, content, k).None?
    ensures ResolveSharedText(content, relStencil) == content
  {
    NoMatchUnchanged(content, SharedGdrive, FileTemplate(relStencil, ""), ReMultiline);
  }
}
