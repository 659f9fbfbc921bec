/** The files under the web root that the controllers write and delete.
    Only the set of paths is kept: contents, directories and I/O errors are
    not part of this model. */
module FileStorage {
  import opened Paths

  class FileStore {
    /** `IWebHostEnvironment.WebRootPath`. */
    const webRoot: string
    /** The platform that decides `Path.DirectorySeparatorChar`. */
    const os: Platform
    var files: set<string>

    constructor (webRoot: string, os: Platform, files: set<string>)
      ensures this.webRoot == webRoot && this.os == os && this.files == files
    {
      this.webRoot, this.os, this.files := webRoot, os, files;
    }

    /** `new FileStream(path, FileMode.Create)`: the file exists afterwards,
        whether or not it existed before. */
    method Write(path: string)
      modifies this
      ensures files == old(files) + {path}
    {
      files := files + {path};
    }

    /** `DeleteImageFile(imageUrl)`: the URL is turned into a path under the
        web root and that file is deleted if it exists; a missing file is
        not an error. */
    method DeleteImageFile(imageUrl: string)
      modifies this
      ensures files == old(files) - {UrlToFilePath(webRoot, imageUrl, os)}
      ensures UrlToFilePath(webRoot, imageUrl, os) !in old(files) ==> files == old(files)
    {
      var path := UrlToFilePath(webRoot, imageUrl, os);
      if path in files {
        files := files - {path};
      }
    }
  }
}
