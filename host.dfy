/** What the plugin sees of its host editor: the two persisted settings and
    the note vault. The vault's library calls (`getFileByPath` with
    `cachedRead`, `getAbstractFileByPath`) become lookups in two maps. */
module Host {

  /** The persisted settings: the projects-folder name and the compile mode. */
  datatype Settings = Settings(projectsFolder: string, compileExtended: string)

  /** The defaults merged under the loaded settings. */
  const DefaultSettings: Settings := Settings("Projects", "extended")

  /** What `getAbstractFileByPath` finds at a path. */
  datatype Entry = Missing | FileEntry | FolderEntry(children: seq<string>)

  /** The vault: file contents by path, and folder children (their names) by path. */
  datatype Vault = Vault(files: map<string, string>, folders: map<string, seq<string>>)

  /** `getAbstractFileByPath`: a folder when the path names one, else a
      file when it names one, else nothing. */
  function AbstractFileAt(vault: Vault, path: string): (e: Entry)
    ensures e.FolderEntry? <==> path in vault.folders
    ensures e.FolderEntry? ==> e.children == vault.folders[path]
    ensures e.FileEntry? <==> path !in vault.folders && path in vault.files
    ensures e.Missing? <==> path !in vault.folders && path !in vault.files
  {
    if path in vault.folders then FolderEntry(vault.folders[path])
    else if path in vault.files then FileEntry
    else Missing
  }
}
