# Loose-object reader of a minimal Git clone

This project models, in Dafny, the one piece of logic in `app/main.py` of a
small Git re-implementation: reading a loose object and the command
dispatcher around it.

- **Object paths** (`object_paths.dfy`, module `ObjectPaths`): an object id
  `sha` lives at `.git/objects/<sha[:2]>/<sha[2:]>`. Python's slicing is
  modelled exactly, so ids shorter than two characters are covered too.
  The bucket and file name join back to the id, and distinct ids give
  distinct path strings.
- **Splitting** (`seqs.dfy`, module `Seqs`): `bytes.split(sep, 1)` followed
  by a two-way unpacking is `SplitFirst`, which cuts at the first
  occurrence of the separator only and fails when there is none.
- **Reading a blob** (`loose_objects.dfy`, module `LooseObjects`): the
  decompressed bytes are split at the first NUL into header and content,
  the header at its first space into type and size field, and any type
  other than `blob` is rejected. The content is every byte after the
  first NUL, later NULs included; the size field may contain spaces and
  is never compared with the content length. Parsing is proved to be the
  exact inverse of the layout `type + " " + size + "\0" + content` on
  well-formed objects, and a read succeeds exactly on blob encodings.
  The repository's object files are a map from path to their
  decompressed bytes; a missing path is the "not found" error.
- **Commands** (`cli.dfy`, module `Cli`): `main` with `argv` given as a
  sequence of strings. It fails with no command, with an unknown command,
  with a `cat-file` that does not have exactly four arguments with `-p`
  third, or with the error of the blob read when `cat-file -p` cannot read
  the object. `init` creates `.git`, `.git/objects` and `.git/refs` and
  writes HEAD as `ref: refs/heads/main\n`, a symbolic reference to branch
  `main`. What a run would create or print is returned as a value.

Git's own reader checks the declared size against the content length;
this code does not. `SizeFieldIgnored` and `HelloBlobWrongSize` state
that behaviour.

## Model

| member | source | states |
|---|---|---|
| `ObjectPaths.Bucket` | app/main.py:6 | the bucket is a prefix of the id, two characters long, or the whole id when it is shorter |
| `ObjectPaths.Rest` | app/main.py:7 | the file name has the id's length minus two, or is empty for ids shorter than two |
| `ObjectPaths.BucketDir` | app/main.py:6 | the bucket directory lies under `.git/objects/` |
| `ObjectPaths.ObjectPath` | app/main.py:6-7 | the object's file lies inside its bucket directory, and its path is as long as the prefix plus the id plus two separators |
| `ObjectPaths.BucketJoin` | app/main.py:6-7 | the bucket followed by the file name gives back the id, for every id |
| `ObjectPaths.ObjectPathLayout` | app/main.py:6-7 | for ids of two or more characters the path is `.git/objects/` + `sha[..2]` + `/` + `sha[2..]` |
| `ObjectPaths.FullIdLayout` | app/main.py:6-7 | a 40-character id gives a 2-character bucket, a 38-character file name, and a `/` between them |
| `ObjectPaths.ObjectPathInjective` | app/main.py:6-7 | two ids with the same object path are equal |
| `Seqs.IndexOf` | app/main.py:17 | the result is absent exactly when the element does not occur; otherwise it is an index of the element with no earlier occurrence |
| `Seqs.SplitFirst` | app/main.py:17-18 | the split fails exactly when the separator is absent; otherwise head + separator + tail is the input and the head has no separator |
| `Seqs.SplitFirstOfJoin` | app/main.py:17-18 | splitting `head + [sep] + tail` with no separator in head gives exactly head and tail, whatever the tail holds |
| `LooseObjects.Parse` | app/main.py:17-18 | a parse yields a well-formed object whose layout is the input; it fails with the missing-NUL error exactly when no NUL occurs; it fails only with the two unpacking errors |
| `LooseObjects.ParseEncode` | app/main.py:17-18 | parsing the layout of any well-formed object gives that object back |
| `LooseObjects.ParseSucceedsIff` | app/main.py:17-18 | parsing succeeds exactly on the layouts of well-formed objects |
| `LooseObjects.MissingSpaceIff` | app/main.py:18 | the missing-space error occurs exactly when a NUL is present and the header before the first NUL has no space |
| `LooseObjects.ReadBlob` | app/main.py:17-23 | on success the data starts with `blob `, the content is exactly the bytes after the first NUL, and no NUL comes before it; a malformed object fails with the parse's own unpacking error; a type error names a type other than `blob`; reading never reports "not found" |
| `LooseObjects.ReadBlobIsBlob` | app/main.py:20-23 | a successful read parsed with type exactly `blob` and returns the parsed content |
| `LooseObjects.ReadBlobRejectsOtherTypes` | app/main.py:20-21 | a parsed object of any other type fails with that type |
| `LooseObjects.ReadBlobRoundTrip` | app/main.py:17-23 | `blob ` + any NUL-free size field + NUL + content reads back as exactly that content |
| `LooseObjects.ReadBlobIff` | app/main.py:17-23 | a read returns content `c` exactly when the data is `blob ` + some NUL-free size field + NUL + `c` |
| `LooseObjects.SizeFieldIgnored` | app/main.py:18-23 | two blobs that differ only in their size fields read alike |
| `LooseObjects.HelloBlob` | app/main.py:17-23 | `blob 6\0hello\n` reads as `hello\n` |
| `LooseObjects.HelloBlobWrongSize` | app/main.py:17-23 | `blob 99\0hello\n`, with a wrong declared size, still reads as `hello\n` |
| `LooseObjects.GetBlobContent` | app/main.py:5-23 | the read fails with "not found" for that id exactly when no file exists at the id's object path; otherwise it gives what reading that file's bytes as a blob gives, errors included |
| `LooseObjects.GetBlobContentIff` | app/main.py:5-23 | a read of an id returns `c` exactly when a file exists at the id's object path and holds `blob ` + some NUL-free size field + NUL + `c`; any other file there fails |
| `LooseObjects.GetStoredBlob` | app/main.py:5-23 | once a blob is stored at an id's path, reading that id returns its content |
| `LooseObjects.GetBlobContentFrame` | app/main.py:5-13 | storing any bytes at another id's path string leaves this id's read unchanged |
| `Cli.Main` | app/main.py:28-48 | no command exactly when fewer than two arguments; `init` exactly when the command is `init`, creating the three directories and writing HEAD as `ref: refs/heads/main\n`; the usage error exactly for `cat-file` without four arguments and `-p` third; the unknown-command error, naming the command, exactly for any other command; `cat-file` prints, or fails with, what the blob read gives for the fourth argument |
| `Cli.InitWritesHead` | app/main.py:33-38 | `init` writes HEAD as exactly `ref: refs/heads/main\n` |
| `Cli.MainSucceedsIff` | app/main.py:28-48 | a run succeeds exactly for `init` or for a well-formed `cat-file -p` whose blob reads |
| `Cli.CatFileStoredBlob` | app/main.py:40-46 | `cat-file -p <sha>` on a stored blob prints exactly its content |

## Left out

- zlib decompression (app/main.py:15) is a foreign library. The object map holds already-decompressed bytes, so a corrupt compressed file is not modelled.
- Path normalisation and case folding are not modelled. Files are keyed by the raw path string, and ids are not checked to be lower-case hex. So `ObjectPathInjective` and `GetBlobContentFrame` speak of path strings. On a real file system `abcd` and `ab/cd` (`.git/objects/ab/cd` and `.git/objects/ab//cd`) name the same file, and so do ids differing only in case on a case-insensitive file system.
- Filesystem access: the existence check and the read (app/main.py:9-13) are a lookup in the object map. A path that exists but cannot be read, such as a directory, is not modelled.
- `os.mkdir` and the HEAD write (app/main.py:34-38) are not performed. `Main` returns the directories and the HEAD text as an `Effect`, so "directory already exists" failures are not modelled.
- The UTF-8 decoding of the content (app/main.py:23) is a library codec. Content is returned as bytes, so invalid UTF-8 content, which fails in the program, reads successfully in the model.
- The decoding of the type name in the error message (app/main.py:21) is left out. The error carries the raw type bytes. A type that is not valid UTF-8 fails in the program with a UnicodeDecodeError rather than the RuntimeError; the model reports both as `UnexpectedType`.
- Printing and the stderr log line (app/main.py:26, 39, 46) are output, and reading `sys.argv` is left to the caller (`argv` is a parameter).
