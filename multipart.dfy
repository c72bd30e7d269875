/**
  The multipart/form-data body (RFC 7578, boundaries per section 5.1 of
  RFC 2046) as mime/multipart.Writer builds it over an in-memory buffer,
  seen as its sequence of parts and whether the closing boundary has
  been written. Boundary bytes and part headers are not modelled.
 */
module Multipart {

  import opened Bytes

  /** A plain form field, or a file field with its filename and content. */
  datatype Part =
    | Field(name: Bytes, value: Bytes)
    | File(name: Bytes, filename: Bytes, content: Bytes)

  /** A multipart body: its parts in writing order, and whether the writer was closed. */
  datatype Form = Form(parts: seq<Part>, closed: bool)

  /** What the file system holds at a path: readable bytes, or something that opens but cannot be read. */
  datatype FileEntry = Readable(data: Bytes) | Unreadable

  /** Paths absent from the map cannot be opened. */
  type FileSystem = map<Bytes, FileEntry>

  /**
    The file half of filepath.Split on a Unix path: everything after the
    last '/', the whole path when there is none.
   */
  function BaseName(path: Bytes): (r: Bytes)
    ensures SLASH !in r
    ensures |r| <= |path| && r == path[|path| - |r|..]
    ensures |r| < |path| ==> path[|path| - |r| - 1] == SLASH
    decreases |path|
  {
    if path == [] || path[|path| - 1] == SLASH then []
    else BaseName(path[..|path| - 1]) + [path[|path| - 1]]
  }

  /** The base name of dir + "/" + file is file, whenever file has no '/'. */
  lemma {:induction false} BaseNameOfJoin(dir: Bytes, file: Bytes)
    requires SLASH !in file
    ensures BaseName(dir + [SLASH] + file) == file
    decreases |file|
  {
    var p := dir + [SLASH] + file;
    if file != [] {
      var init := file[..|file| - 1];
      assert p[..|p| - 1] == dir + [SLASH] + init;
      assert SLASH !in init by {
        forall i | 0 <= i < |init| ensures init[i] != SLASH { assert init[i] == file[i]; }
      }
      BaseNameOfJoin(dir, init);
      assert file == init + [file[|file| - 1]];
    }
  }

  /** A path without '/' is its own base name. */
  lemma {:induction false} BaseNameOfPlainName(file: Bytes)
    requires SLASH !in file
    ensures BaseName(file) == file
    decreases |file|
  {
    if file != [] {
      var init := file[..|file| - 1];
      assert SLASH !in init by {
        forall i | 0 <= i < |init| ensures init[i] != SLASH { assert init[i] == file[i]; }
      }
      BaseNameOfPlainName(init);
      assert file == init + [file[|file| - 1]];
    }
  }

  /** multipart.Writer writing into a bytes.Buffer. */
  class Writer {
    var parts: seq<Part>
    var closed: bool

    constructor ()
      ensures parts == [] && !closed
    {
      parts := [];
      closed := false;
    }

    /** The body written so far. */
    function Contents(): Form
      reads this
    {
      Form(parts, closed)
    }

    /** Writer.WriteField: a plain field. */
    method WriteField(name: Bytes, value: Bytes)
      modifies this
      ensures parts == old(parts) + [Field(name, value)]
      ensures closed == old(closed)
    {
      parts := parts + [Field(name, value)];
    }

    /** Writer.CreateFormFile: opens a file field whose content is written next. */
    method CreateFormFile(name: Bytes, filename: Bytes)
      modifies this
      ensures parts == old(parts) + [File(name, filename, [])]
      ensures closed == old(closed)
    {
      parts := parts + [File(name, filename, [])];
    }

    /** io.Copy into the part CreateFormFile returned: appends to the last file part. */
    method CopyIntoLast(data: Bytes)
      requires parts != [] && parts[|parts| - 1].File?
      modifies this
      ensures |parts| == |old(parts)|
      ensures parts[..|parts| - 1] == old(parts)[..|parts| - 1]
      ensures var last := old(parts)[|parts| - 1];
              parts[|parts| - 1] == last.(content := last.content + data)
      ensures closed == old(closed)
    {
      var last := parts[|parts| - 1];
      parts := parts[..|parts| - 1] + [last.(content := last.content + data)];
    }

    /** Writer.Close: writes the closing boundary. */
    method Close()
      modifies this
      ensures parts == old(parts) && closed
    {
      closed := true;
    }
  }
}
