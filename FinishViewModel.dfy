/**
  `FinishCharactersViewModel`: the state-flow variant. The screen state is
  replaced or updated in place, and a successful click is reported as a
  one-time event on a channel instead of through the state. As in the first
  view model, each launched request is modelled by the method that runs when
  it completes.
 */
module FinishViewModel {
  import opened Streams
  import opened Repository
  import opened Presentation

  class FinishCharactersViewModel {
    var state: CharactersState
    /** The dialog events sent and not yet received, oldest first. */
    var dialogEvents: seq<string>

    /** The state flow starts at `loadingState()`; `init` launches `requestCharacters()`. */
    constructor ()
      ensures state == LoadingState() && dialogEvents == []
    {
      state := LoadingState();
      dialogEvents := [];
    }

    /** `requestCharacters()`, completed with the API's `response`. */
    method RequestCharacters(response: Result<seq<CharacterDto>>)
      modifies this
      ensures state == LoadedState(GetAllCharacters(response))
      ensures dialogEvents == old(dialogEvents)
    {
      state := LoadedState(GetAllCharacters(response));
    }

    /** `refresh()`: exactly `requestCharacters()`; the loading flag is not raised again. */
    method Refresh(response: Result<seq<CharacterDto>>)
      modifies this
      ensures state == LoadedState(GetAllCharacters(response)) && !state.isLoading
      ensures dialogEvents == old(dialogEvents)
    {
      RequestCharacters(response);
    }

    /**
      `requestCharactersWithFlow()`: collects `getAllCharactersByFlow()`
      and catches its failure. It ends in the same state as
      `requestCharacters()` for the same answer of the API.
     */
    method RequestCharactersWithFlow(response: Result<seq<CharacterDto>>)
      modifies this
      ensures state == LoadedState(GetAllCharacters(response))
      ensures dialogEvents == old(dialogEvents)
    {
      var run := GetAllCharactersByFlow(response);
      var i := 0;
      while i < |run.values|
        invariant 0 <= i <= |run.values|
        invariant dialogEvents == old(dialogEvents)
        invariant i > 0 ==> state == LoadedState(Success(run.values[i - 1]))
      {
        state := LoadedState(Success(run.values[i]));
        i := i + 1;
      }
      if run.end.Failed? {
        state := LoadedState(Failure(run.end.error));
      }
    }

    /**
      `handleClick(id)`, completed with the API's answers `fetch`: the
      character's name is sent as a dialog event and the state is left
      alone; a failure raises the error flag and sends nothing.
     */
    method HandleClick(id: int, fetch: int -> Result<CharacterDto>)
      modifies this
      ensures fetch(id).Success? ==>
        state == old(state) && dialogEvents == old(dialogEvents) + [fetch(id).value.name]
      ensures fetch(id).Failure? ==>
        state == ClickFailed(old(state)) && dialogEvents == old(dialogEvents)
    {
      var run := GetCharacterById(id, fetch);
      var i := 0;
      while i < |run.values|
        invariant 0 <= i <= |run.values|
        invariant state == old(state)
        invariant dialogEvents == old(dialogEvents) + seq(i, k requires 0 <= k < i => run.values[k].name)
      {
        dialogEvents := dialogEvents + [run.values[i].name];
        i := i + 1;
      }
      if run.end.Failed? {
        state := ClickFailed(state);
      }
    }

    /**
      The screen collecting `dialogEvents`: it receives the oldest event
      sent, or nothing while none is waiting.
     */
    method ReceiveDialogEvent() returns (event: Option<string>)
      modifies this
      ensures old(dialogEvents) == [] ==> event == None && dialogEvents == []
      ensures old(dialogEvents) != [] ==>
        event == Some(old(dialogEvents)[0]) && dialogEvents == old(dialogEvents)[1..]
      ensures state == old(state)
    {
      if dialogEvents == [] {
        event := None;
      } else {
        event := Some(dialogEvents[0]);
        dialogEvents := dialogEvents[1..];
      }
    }
  }
}
