/**
  The working directory the scripts write into: a map from file name to the rows
  the file holds. Opening a file with mode "w" and writing it replaces whatever the
  file held before; no other file changes.
*/
module Files {

  class Disk<T> {
    var files: map<string, T>

    constructor (initial: map<string, T>)
      ensures files == initial
    {
      files := initial;
    }

    /** `open(path, "w")` followed by writing `content`: the old content of `path` is discarded. */
    method Overwrite(path: string, content: T)
      modifies this
      ensures files == old(files)[path := content]
      ensures path in files && files[path] == content
      ensures forall p :: p in old(files) && p != path ==> p in files && files[p] == old(files)[p]
    {
      files := files[path := content];
    }
  }
}
