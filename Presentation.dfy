/**
  `CharactersState`, the screen state both view models publish, and the
  state changes they make to it.
 */
module Presentation {
  import opened Streams
  import opened Repository

  /** The screen state; a newly built state has no dialog. */
  datatype CharactersState = CharactersState(
    items: seq<RaMCharacter>,
    isLoading: bool,
    isError: bool,
    showDialog: bool := false,
    dialogMessage: string := "")

  /** The state before the first load completes: nothing shown, loading, no error, no dialog. */
  function LoadingState(): (s: CharactersState)
    ensures s.items == [] && s.isLoading && !s.isError
    ensures !s.showDialog && s.dialogMessage == ""
  {
    CharactersState(items := [], isLoading := true, isError := false)
  }

  /**
    The state a completed load builds from scratch: the characters on
    success, nothing and an error on failure; never loading, and the dialog
    fields back at their defaults whatever was shown before.
   */
  function LoadedState(result: Result<seq<RaMCharacter>>): (s: CharactersState)
    ensures !s.isLoading && !s.showDialog && s.dialogMessage == ""
    ensures s.isError <==> result.Failure?
    ensures s.items == if result.Success? then result.value else []
  {
    match result
    case Success(characters) => CharactersState(items := characters, isLoading := false, isError := false)
    case Failure(_) => CharactersState(items := [], isLoading := false, isError := true)
  }

  /** A failed click: the error flag is raised and nothing else changes. */
  function ClickFailed(s: CharactersState): (t: CharactersState)
    ensures t.isError
    ensures t.items == s.items && t.isLoading == s.isLoading
    ensures t.showDialog == s.showDialog && t.dialogMessage == s.dialogMessage
  {
    s.(isError := true)
  }

  /** A successful click in the first view model: the dialog shows `name`; the rest is kept. */
  function DialogShown(s: CharactersState, name: string): (t: CharactersState)
    ensures t.showDialog && t.dialogMessage == name
    ensures t.items == s.items && t.isLoading == s.isLoading && t.isError == s.isError
  {
    s.(showDialog := true, dialogMessage := name)
  }

  /** `dialogDismoss()`: the dialog is hidden and its message cleared; the rest is kept. */
  function Dismissed(s: CharactersState): (t: CharactersState)
    ensures !t.showDialog && t.dialogMessage == ""
    ensures t.items == s.items && t.isLoading == s.isLoading && t.isError == s.isError
  {
    s.(showDialog := false, dialogMessage := "")
  }

  /** Dismissing twice is dismissing once. */
  lemma DismissIdempotent(s: CharactersState)
    ensures Dismissed(Dismissed(s)) == Dismissed(s)
  {
  }

  /** After a dialog is shown and dismissed, the state is the dismissed original. */
  lemma ShowThenDismiss(s: CharactersState, name: string)
    ensures Dismissed(DialogShown(s, name)) == Dismissed(s)
  {
  }
}
