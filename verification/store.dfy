/** The file system as the document helpers see it: a map from path to the
    file's content, or to the error reading it fails with. */
module Store {
  import opened Wrappers
  import opened Errors

  type Disk = map<string, Result<string>>

  /** The outcome of an operation that can fail with one of the client's
      errors. */
  datatype Attempt<+T> = Done(value: T) | Failed(error: Error)

  /** The text of os.ReadFile's error for a path that does not exist (on a
      Unix system). */
  function NoSuchFile(path: string): string {
    "open " + path + ": no such file or directory"
  }

  /** os.ReadFile */
  function ReadFile(disk: Disk, path: string): (r: Result<string>)
    ensures path !in disk ==> r == Fail(NoSuchFile(path))
    ensures path in disk ==> r == disk[path]
  {
    if path in disk then disk[path] else Fail(NoSuchFile(path))
  }

  /** filepath.Join(dir, name) for a plain file name, without the lexical
      cleaning of `dir`. */
  function PathJoin(dir: string, name: string): string {
    if dir == "" then name else dir + "/" + name
  }
}
