/**
 * The command dispatcher: `init` lays out a fresh repository whose HEAD
 * is a symbolic reference to branch `main`; `cat-file -p <sha>` reads a
 * blob; anything else fails. The program's arguments are given as `argv`
 * (with the program name at index 0) and the object files as a map from
 * path to decompressed bytes. What main would create or print is returned
 * as an `Effect` instead of being carried out.
 */
module Cli {
  import opened LooseObjects

  /** The directories `init` creates, in order, and the HEAD file it writes. */
  const InitDirs: seq<string> := [".git", ".git/objects", ".git/refs"]
  const HeadPath: string := ".git/HEAD"
  const InitHead: string := "ref: refs/heads/main\n"

  /** What a successful run does. */
  datatype Effect =
    | Initialized(dirs: seq<string>, headPath: string, head: string)  // `init`
    | Printed(content: seq<byte>)                                     // `cat-file -p`

  /**
   * Why a run fails. The first three are RuntimeErrors in the program; a
   * failed read carries the reader's error (its two unpacking errors are a
   * ValueError there, a missing file a RuntimeError, and a wrong type a
   * RuntimeError unless the type bytes are not valid UTF-8, when decoding
   * them for the message raises UnicodeDecodeError first).
   */
  datatype CliError =
    | NoCommand
    | Usage
    | UnknownCommand(command: string)
    | ReadFailed(cause: Error)

  datatype Outcome = Done(effect: Effect) | Failed(error: CliError)

  /** The argument shape `cat-file` accepts: exactly four arguments, the third `-p`. */
  predicate CatFileArgs(argv: seq<string>) {
    |argv| == 4 && argv[2] == "-p"
  }

  /**
   * `main`: no command, `init`, `cat-file` with its argument check and the
   * blob read, or an unknown command, checked in that order.
   */
  function Main(argv: seq<string>, objects: map<string, seq<byte>>): (r: Outcome)
    ensures r == Failed(NoCommand) <==> |argv| < 2
    ensures r.Done? && r.effect.Initialized? <==> |argv| >= 2 && argv[1] == "init"
    ensures r.Done? && r.effect.Initialized? ==>
      r.effect.dirs == InitDirs && r.effect.headPath == HeadPath && r.effect.head == "ref: refs/heads/main\n"
    ensures r == Failed(Usage) <==> |argv| >= 2 && argv[1] == "cat-file" && !CatFileArgs(argv)
    ensures r.Failed? && r.error.UnknownCommand? <==> |argv| >= 2 && argv[1] != "init" && argv[1] != "cat-file"
    ensures r.Failed? && r.error.UnknownCommand? ==> r.error.command == argv[1]
    ensures r.Done? && r.effect.Printed? ==>
      argv[1] == "cat-file" && CatFileArgs(argv) && GetBlobContent(argv[3], objects) == Ok(r.effect.content)
    ensures r.Failed? && r.error.ReadFailed? ==>
      argv[1] == "cat-file" && CatFileArgs(argv) && GetBlobContent(argv[3], objects) == Err(r.error.cause)
  {
    if |argv| < 2 then Failed(NoCommand)
    else
      var command := argv[1];
      if command == "init" then
        Done(Initialized(InitDirs, HeadPath, InitHead))
      else if command == "cat-file" then
        if !CatFileArgs(argv) then Failed(Usage)
        else
          match GetBlobContent(argv[3], objects)
          case Ok(content) => Done(Printed(content))
          case Err(e) => Failed(ReadFailed(e))
      else Failed(UnknownCommand(command))
  }

  /** `init` writes HEAD as exactly `ref: refs/heads/main` and a newline. */
  lemma InitWritesHead(argv: seq<string>, objects: map<string, seq<byte>>)
    requires |argv| >= 2 && argv[1] == "init"
    ensures Main(argv, objects) == Done(Initialized(InitDirs, HeadPath, "ref: refs/heads/main\n"))
  {
  }

  /** A run succeeds exactly for `init` or for a well-formed `cat-file -p` of a readable blob. */
  lemma MainSucceedsIff(argv: seq<string>, objects: map<string, seq<byte>>)
    ensures Main(argv, objects).Done? <==>
      |argv| >= 2 &&
      (argv[1] == "init" || (argv[1] == "cat-file" && CatFileArgs(argv) && GetBlobContent(argv[3], objects).Ok?))
  {
  }

  /** `cat-file -p` of a stored blob prints exactly its content, whatever its declared size. */
  lemma {:induction false} CatFileStoredBlob(program: string, sha: string, objects: map<string, seq<byte>>, size: seq<byte>, content: seq<byte>)
    requires NUL !in size
    ensures Main([program, "cat-file", "-p", sha], objects[ObjectPaths.ObjectPath(sha) := Encode(LooseObject(BlobType, size, content))])
         == Done(Printed(content))
  {
    GetStoredBlob(sha, objects, size, content);
  }
}
