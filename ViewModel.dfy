/**
  `CharactersViewModel`: holds the screen state and changes it when a load
  or a click completes. Every launched request is modelled by the method
  that runs when it completes, with the API's answer as its argument;
  concurrent requests are taken one at a time.
 */
module ViewModel {
  import opened Streams
  import opened Repository
  import opened Presentation

  class CharactersViewModel {
    var state: CharactersState

    /** `init`: the loading state. The request it launches completes through `RequestCharacters`. */
    constructor ()
      ensures state == LoadingState()
    {
      state := LoadingState();
    }

    /** `requestCharacters()`, completed with the API's `response`. */
    method RequestCharacters(response: Result<seq<CharacterDto>>)
      modifies this
      ensures state == LoadedState(GetAllCharacters(response))
    {
      state := LoadedState(GetAllCharacters(response));
    }

    /** `refresh()`: the same request; the loading flag is not raised again first. */
    method Refresh(response: Result<seq<CharacterDto>>)
      modifies this
      ensures state == LoadedState(GetAllCharacters(response))
      ensures !state.isLoading
    {
      RequestCharacters(response);
    }

    /** `requestCharactersWithFlow()`: its coroutine is empty, so nothing changes. */
    method RequestCharactersWithFlow()
      ensures state == old(state)
    {
    }

    /**
      `handleClick(id)`, completed with the API's answers `fetch`: each
      character the flow emits opens the dialog on its name; a failure only
      raises the error flag.
     */
    method HandleClick(id: int, fetch: int -> Result<CharacterDto>)
      modifies this
      ensures fetch(id).Success? ==> state == DialogShown(old(state), fetch(id).value.name)
      ensures fetch(id).Failure? ==> state == ClickFailed(old(state))
    {
      var run := GetCharacterById(id, fetch);
      var i := 0;
      while i < |run.values|
        invariant 0 <= i <= |run.values|
        invariant i == 0 ==> state == old(state)
        invariant i > 0 ==> state == DialogShown(old(state), run.values[i - 1].name)
      {
        state := DialogShown(state, run.values[i].name);
        i := i + 1;
      }
      if run.end.Failed? {
        state := ClickFailed(state);
      }
    }

    /** `dialogDismoss()`. */
    method DialogDismoss()
      modifies this
      ensures state == Dismissed(old(state))
    {
      state := Dismissed(state);
    }
  }
}
