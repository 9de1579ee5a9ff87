/** Errors raised by the plugin and the result type that carries them.
    Every `throw` of the modelled code is one constructor of `Error`; its
    message text is not modelled, only the information it reports. */
module Results {

  datatype Error =
    // collectLatex / findLatexBlocks called with a negative position or no lines
    | InvalidCollectParameter(pos: int, length: int)
    | InvalidFindParameter(pos: int, length: int)
    // processLatexFromFiles with an empty list
    | NoFileContents
    // readFile / readFiles / getFilesFromMain
    | NoFileOrProjectName
    | DocumentNotFound(fileName: string)
    | NoProjectName
    | NoFilesToOpen
    | NoMainName
    // the single wrapped error of the front-matter parse
    | FrontMatterUnreadable
    // project identification
    | NoActiveFile
    | NoProjectNumber
    | ProjectsFolderMissing
    | ProjectsFolderNotAFolder
    | NoProjects
    | ProjectNotFound(projectNumber: string)
    | MultipleProjects(projectNumber: string)
    // no file-system adapter (mobile version)
    | UnsupportedPlatform

  /** A value, or the error that was thrown instead; usable with `:-`. */
  datatype Result<T> = Ok(value: T) | Err(error: Error) {

    predicate IsFailure() {
      Err?
    }

    function PropagateFailure<U>(): Result<U>
      requires Err?
    {
      Err(error)
    }

    function Extract(): T
      requires Ok?
    {
      value
    }
  }

  datatype Option<T> = None | Some(value: T)
}
