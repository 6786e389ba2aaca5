/**
 * A file on external storage, read and written in full. The stores never
 * write part of a file; a read returns what was last written, by this
 * process or by another one.
 */
module Storage {

  class StoredFile<T> {
    var contents: T

    constructor (contents: T)
      ensures this.contents == contents
    {
      this.contents := contents;
    }
  }
}
