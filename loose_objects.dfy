/**
 * Reading a loose object: the (already decompressed) bytes are a header
 * `<type> <size>` and a NUL, followed by the content. Only blobs are
 * accepted. The declared size is kept as raw bytes and never checked.
 */
module LooseObjects {
  import opened Seqs
  import opened ObjectPaths

  type byte = bv8

  const NUL: byte := 0x00
  const SP: byte := 0x20
  /** The ASCII bytes of the type name `blob`. */
  const BlobType: seq<byte> := [0x62, 0x6C, 0x6F, 0x62]

  /** Why reading an object fails. */
  datatype Error =
    | NotFound(sha: string)            // no file at the object's path
    | MissingNul                        // no NUL byte: the header/content unpacking fails
    | MissingSpace                      // no space in the header: the type/size unpacking fails
    | UnexpectedType(kind: seq<byte>)   // a well-formed object that is not a blob

  datatype Result<+T> = Ok(value: T) | Err(error: Error)

  /** A parsed object: the type field, the size field exactly as written, and the content. */
  datatype LooseObject = LooseObject(kind: seq<byte>, size: seq<byte>, content: seq<byte>)

  /** The fields of an object that its encoding can carry unambiguously. */
  predicate WellFormed(o: LooseObject) {
    NUL !in o.kind && SP !in o.kind && NUL !in o.size
  }

  /** The byte layout of an object: `kind + " " + size + "\0" + content`. */
  function Encode(o: LooseObject): seq<byte> {
    o.kind + [SP] + o.size + [NUL] + o.content
  }

  /**
   * Split the bytes at the first NUL into header and content, then the
   * header at its first space into type and size field.
   */
  function Parse(data: seq<byte>): (r: Result<LooseObject>)
    ensures r.Ok? ==> WellFormed(r.value) && Encode(r.value) == data
    ensures r == Err(MissingNul) <==> NUL !in data
    ensures r.Err? ==> r.error == MissingNul || r.error == MissingSpace
  {
    match SplitFirst(data, NUL)
    case None => Err(MissingNul)
    case Some((header, content)) =>
      match SplitFirst(header, SP)
      case None => Err(MissingSpace)
      case Some((kind, size)) =>
        assert header == kind + [SP] + size;
        Ok(LooseObject(kind, size, content))
  }

  /** Parsing undoes encoding on every well-formed object. */
  lemma {:induction false} ParseEncode(o: LooseObject)
    requires WellFormed(o)
    ensures Parse(Encode(o)) == Ok(o)
  {
    var header := o.kind + [SP] + o.size;
    assert NUL !in header;
    assert Encode(o) == header + [NUL] + o.content;
    SplitFirstOfJoin(header, NUL, o.content);
    SplitFirstOfJoin(o.kind, SP, o.size);
  }

  /** Parsing succeeds exactly on the encodings of well-formed objects. */
  lemma ParseSucceedsIff(data: seq<byte>)
    ensures Parse(data).Ok? <==> exists o :: WellFormed(o) && Encode(o) == data
  {
    if exists o :: WellFormed(o) && Encode(o) == data {
      var o :| WellFormed(o) && Encode(o) == data;
      ParseEncode(o);
    }
  }

  /** The header is missing its space exactly when a NUL is present and no space comes before the first one. */
  lemma {:induction false} MissingSpaceIff(data: seq<byte>)
    ensures Parse(data) == Err(MissingSpace) <==> NUL in data && SP !in SplitFirst(data, NUL).value.0
  {
  }

  /**
   * The object reader without its file access: parse, then reject any
   * type other than `blob`. On success the content is exactly the bytes
   * after the first NUL, and the data starts with `blob `.
   */
  function ReadBlob(data: seq<byte>): (r: Result<seq<byte>>)
    ensures r.Ok? ==> BlobType + [SP] <= data
    ensures r.Ok? ==> |r.value| < |data|
    ensures r.Ok? ==> data[|data| - |r.value| - 1] == NUL
    ensures r.Ok? ==> data[|data| - |r.value|..] == r.value
    ensures r.Ok? ==> NUL !in data[..|data| - |r.value| - 1]
    ensures r.Err? && r.error.UnexpectedType? ==> r.error.kind != BlobType
    ensures r.Err? ==> !r.error.NotFound?
    ensures Parse(data).Err? ==> r == Err(Parse(data).error)
  {
    match Parse(data)
    case Err(e) => Err(e)
    case Ok(o) =>
      if o.kind != BlobType then Err(UnexpectedType(o.kind))
      else
        assert data == (o.kind + [SP] + o.size) + [NUL] + o.content;
        assert data[..|data| - |o.content| - 1] == o.kind + [SP] + o.size;
        Ok(o.content)
  }

  /** A successful read means a well-formed object whose type is exactly `blob`. */
  lemma ReadBlobIsBlob(data: seq<byte>)
    requires ReadBlob(data).Ok?
    ensures Parse(data).Ok? && Parse(data).value.kind == BlobType
    ensures ReadBlob(data).value == Parse(data).value.content
  {
  }

  /** Any other type, once the header parses, is rejected with that type. */
  lemma ReadBlobRejectsOtherTypes(data: seq<byte>)
    ensures Parse(data).Ok? && Parse(data).value.kind != BlobType ==>
      ReadBlob(data) == Err(UnexpectedType(Parse(data).value.kind))
  {
  }

  /**
   * Round trip: a blob with any content and any NUL-free size field,
   * spaces included, reads back as exactly that content.
   */
  lemma {:induction false} ReadBlobRoundTrip(size: seq<byte>, content: seq<byte>)
    requires NUL !in size
    ensures ReadBlob(Encode(LooseObject(BlobType, size, content))) == Ok(content)
  {
    ParseEncode(LooseObject(BlobType, size, content));
  }

  /** Reading succeeds with content `c` exactly when the data is a blob encoding of `c`. */
  lemma ReadBlobIff(data: seq<byte>, c: seq<byte>)
    ensures ReadBlob(data) == Ok(c) <==> exists size :: NUL !in size && Encode(LooseObject(BlobType, size, c)) == data
  {
    if ReadBlob(data) == Ok(c) {
      var o := Parse(data).value;
      assert NUL !in o.size && Encode(LooseObject(BlobType, o.size, c)) == data;
    }
    if exists size :: NUL !in size && Encode(LooseObject(BlobType, size, c)) == data {
      var size :| NUL !in size && Encode(LooseObject(BlobType, size, c)) == data;
      ReadBlobRoundTrip(size, c);
    }
  }

  /** The declared size is never compared with the content: any two size fields read alike. */
  lemma {:induction false} SizeFieldIgnored(size1: seq<byte>, size2: seq<byte>, content: seq<byte>)
    requires NUL !in size1 && NUL !in size2
    ensures ReadBlob(Encode(LooseObject(BlobType, size1, content)))
         == ReadBlob(Encode(LooseObject(BlobType, size2, content)))
  {
    ReadBlobRoundTrip(size1, content);
    ReadBlobRoundTrip(size2, content);
  }

  /** The bytes of `hello\n`. */
  const Hello: seq<byte> := [0x68, 0x65, 0x6C, 0x6C, 0x6F, 0x0A]

  /** `blob 6\0hello\n` reads as `hello\n`. */
  lemma HelloBlob()
    ensures ReadBlob([0x62, 0x6C, 0x6F, 0x62, 0x20, 0x36, 0x00] + Hello) == Ok(Hello)
  {
    var size: seq<byte> := [0x36];
    ReadBlobRoundTrip(size, Hello);
    assert BlobType + [SP] + size + [NUL] == [0x62, 0x6C, 0x6F, 0x62, 0x20, 0x36, 0x00];
  }

  /** `blob 99\0hello\n`, whose declared size is wrong, still reads as `hello\n`. */
  lemma HelloBlobWrongSize()
    ensures ReadBlob([0x62, 0x6C, 0x6F, 0x62, 0x20, 0x39, 0x39, 0x00] + Hello) == Ok(Hello)
  {
    var size: seq<byte> := [0x39, 0x39];
    ReadBlobRoundTrip(size, Hello);
    assert BlobType + [SP] + size + [NUL] == [0x62, 0x6C, 0x6F, 0x62, 0x20, 0x39, 0x39, 0x00];
  }

  /**
   * `get_blob_content`: look the id up at its object path in `objects`
   * (path to decompressed bytes), then read it as a blob.
   */
  function GetBlobContent(sha: string, objects: map<string, seq<byte>>): (r: Result<seq<byte>>)
    ensures r == Err(NotFound(sha)) <==> ObjectPath(sha) !in objects
    ensures r.Err? && r.error.NotFound? ==> r.error.sha == sha
    ensures ObjectPath(sha) in objects ==> r == ReadBlob(objects[ObjectPath(sha)])
  {
    var path := ObjectPath(sha);
    if path !in objects then Err(NotFound(sha))
    else ReadBlob(objects[path])
  }

  /**
   * A read of `sha` returns `c` exactly when a file exists at the id's
   * object path and holds a blob encoding of `c`: anything else there,
   * another type included, fails.
   */
  lemma GetBlobContentIff(sha: string, objects: map<string, seq<byte>>, c: seq<byte>)
    ensures GetBlobContent(sha, objects) == Ok(c) <==>
      ObjectPath(sha) in objects &&
      exists size :: NUL !in size && Encode(LooseObject(BlobType, size, c)) == objects[ObjectPath(sha)]
  {
    if ObjectPath(sha) in objects {
      ReadBlobIff(objects[ObjectPath(sha)], c);
    }
  }

  /** A blob stored at an id's path reads back as its content. */
  lemma {:induction false} GetStoredBlob(sha: string, objects: map<string, seq<byte>>, size: seq<byte>, content: seq<byte>)
    requires NUL !in size
    ensures GetBlobContent(sha, objects[ObjectPath(sha) := Encode(LooseObject(BlobType, size, content))]) == Ok(content)
  {
    ReadBlobRoundTrip(size, content);
  }

  /** Storing bytes at another id's path string never changes what an id reads. */
  lemma {:induction false} GetBlobContentFrame(sha: string, other: string, data: seq<byte>, objects: map<string, seq<byte>>)
    requires sha != other
    ensures GetBlobContent(sha, objects[ObjectPath(other) := data]) == GetBlobContent(sha, objects)
  {
    if ObjectPath(sha) == ObjectPath(other) {
      ObjectPathInjective(sha, other);
    }
  }
}
