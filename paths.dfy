/** File paths as the renamer sees them, and the extension replacement
    that is applied to the newly created file before it is renamed. */
module Paths {

  datatype Option<T> = None | Some(value: T)

  /** A path taken apart into the directory that holds it, the file stem and
      the extension after the last dot of the file name, if there is one.
      Nothing keeps `ext` free of dots, so values such as an extension
      "tar.gz" exist that no split of a file name would produce; they stand
      for a file renamed with a custom extension that contains a dot. */
  datatype FilePath = FilePath(parent: string, stem: string, ext: Option<string>)

  /** The file name that the path ends in: the stem, then a dot and the
      extension when there is one. */
  function FileName(p: FilePath): string
  {
    match p.ext
    case None => p.stem
    case Some(e) => p.stem + "." + e
  }

  /** Replaces the extension of `p` by `e`, as `set_extension` does for a
      path that has a file stem: an empty `e` removes the extension, any
      other `e` becomes the new one. The directory and the stem never change. */
  function WithExtension(p: FilePath, e: string): (q: FilePath)
    ensures q.parent == p.parent && q.stem == p.stem
    ensures e != "" ==> FileName(q) == p.stem + "." + e
    ensures e == "" ==> FileName(q) == p.stem
  {
    p.(ext := if e == "" then None else Some(e))
  }

  /** Two paths in the same directory with the same stem end up as the same
      path once they are given the same extension, whatever their old one was. */
  lemma OnlyExtensionIsReplaced(p: FilePath, q: FilePath, e: string)
    requires p.parent == q.parent && p.stem == q.stem
    ensures WithExtension(p, e) == WithExtension(q, e)
  {
  }
}
