/** Hunks, markers and errors of the `*** Begin Patch` format. */
module Patch {
  import opened Text

  const BEGIN_PATCH := "*** Begin Patch"
  const END_PATCH := "*** End Patch"
  const ADD_FILE := "*** Add File: "
  const DELETE_FILE := "*** Delete File: "
  const UPDATE_FILE := "*** Update File: "
  const MOVE_TO := "*** Move to: "
  const EOF_MARKER := "*** End of File"
  const CHANGE_CONTEXT := "@@ "
  const EMPTY_CHANGE_CONTEXT := "@@"
  const ENVIRONMENT_ID := "*** Environment ID:"

  datatype Chunk = Chunk(
    changeContext: Option<string>,
    oldLines: seq<string>,
    newLines: seq<string>,
    isEndOfFile: bool)
  {
    predicate IsEmpty() {
      oldLines == [] && newLines == []
    }
  }

  datatype Hunk =
    | AddFile(path: string, contents: string)
    | DeleteFile(path: string)
    | UpdateFile(path: string, movePath: Option<string>, chunks: seq<Chunk>)

  /** Each constructor of `reason` stands for one error message. */
  datatype PatchFault = FirstLineNotBegin | LastLineNotEnd | DuplicateEnvironmentId | EmptyEnvironmentId

  datatype HunkFault = EmptyUpdateHunk | HunkWithoutLines | UnexpectedLine | NotAHunkHeader | ExpectedContextMarker

  datatype ParseError =
    | InvalidPatch(fault: PatchFault)
    | InvalidHunk(hunkFault: HunkFault, lineNumber: nat)

  /** The empty chunk a context marker opens. */
  function NewChunk(context: Option<string>): Chunk {
    Chunk(context, [], [], false)
  }

  function Last<T>(s: seq<T>): T
    requires s != []
  {
    s[|s| - 1]
  }

  function DropLast<T>(s: seq<T>): seq<T>
    requires s != []
  {
    s[..|s| - 1]
  }
}
