/**
 * The opened-file state of `amas-app/src/editor/editor.rs`: a list of opened
 * file names, of which only the first is ever shown.  The reactive cell holding
 * the list becomes a plain field.
 */
module Editing {
  import opened Wrappers

  /** The file shown for a list of opened files: the first one, if any (`first().cloned()`). */
  function FirstOpened(files: seq<string>): (r: Option<string>)
    ensures r == None <==> files == []
    ensures r.Some? ==> r.value in files
  {
    if files == [] then None else Some(files[0])
  }

  /** Opening replaces the list by a singleton, so the opened file is the one shown. */
  lemma OpenedIsShown(fileName: string)
    ensures FirstOpened([fileName]) == Some(fileName)
  {
  }

  class Editor {
    var openedFiles: seq<string>

    /** At most one file is open at a time. */
    ghost predicate Valid()
      reads this
    {
      |openedFiles| <= 1
    }

    /** `Editor::new`: nothing is open. */
    constructor ()
      ensures openedFiles == []
      ensures Valid()
      ensures GetOpenedFile() == None
    {
      openedFiles := [];
    }

    /** `open_file`: the list becomes exactly the given file, whatever was open before. */
    method OpenFile(fileName: string)
      modifies this
      ensures openedFiles == [fileName]
      ensures Valid()
      ensures GetOpenedFile() == Some(fileName)
    {
      openedFiles := [fileName];
      OpenedIsShown(fileName);
    }

    /**
     * `get_opened_file`: the first opened file, read without changing
     * anything; while at most one file is open it is the only one.
     */
    function GetOpenedFile(): (r: Option<string>)
      reads this
      ensures r.None? <==> openedFiles == []
      ensures Valid() && r.Some? ==> openedFiles == [r.value]
    {
      FirstOpened(openedFiles)
    }
  }
}
