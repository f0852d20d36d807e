/**
  `CharactersRepository`: turns the answers of the character API into domain
  characters and into the flows the view models collect. Each API call is
  an input (`Result`): the network itself is not modelled. A flow is the
  `Run` its collector observes.
 */
module Repository {
  import opened Streams

  /** The API's character record (only the fields the repository reads). */
  datatype CharacterDto = CharacterDto(id: int, name: string, image: string)

  /** The domain character; `isFavorite` defaults to false. */
  datatype RaMCharacter = RaMCharacter(id: int, name: string, image: string, isFavorite: bool := false)

  // ---------------------------------------------------------------------------
  // Mapping
  // ---------------------------------------------------------------------------

  /** `CharacterDto.toDomain()`: copies id, name and image and loses nothing of the record. */
  function ToDomain(dto: CharacterDto): (c: RaMCharacter)
    ensures CharacterDto(c.id, c.name, c.image) == dto
    ensures !c.isFavorite
  {
    RaMCharacter(id := dto.id, name := dto.name, image := dto.image)
  }

  /** `results.map { toDomain }`: one character per record, in response order. */
  function MapToDomain(dtos: seq<CharacterDto>): (r: seq<RaMCharacter>)
    ensures |r| == |dtos|
    ensures forall i :: 0 <= i < |dtos| ==> r[i] == ToDomain(dtos[i])
  {
    if dtos == [] then [] else [ToDomain(dtos[0])] + MapToDomain(dtos[1..])
  }

  // ---------------------------------------------------------------------------
  // One-shot requests
  // ---------------------------------------------------------------------------

  /** `getAllCharacters()`: `runCatching` around the API call and the mapping. */
  function GetAllCharacters(response: Result<seq<CharacterDto>>): (r: Result<seq<RaMCharacter>>)
    ensures r.Failure? <==> response.Failure?
    ensures response.Failure? ==> r.error == response.error
    ensures response.Success? ==>
      |r.value| == |response.value| &&
      forall i :: 0 <= i < |response.value| ==> r.value[i] == ToDomain(response.value[i])
  {
    match response
    case Success(dtos) => Success(MapToDomain(dtos))
    case Failure(e) => Failure(e)
  }

  /**
    `getCharacterById(id)`: a flow of exactly the API's record for `id`.
    `fetch` is the API's answer for each id.
   */
  function GetCharacterById(id: int, fetch: int -> Result<CharacterDto>): (r: Run<CharacterDto>)
    ensures |r.values| <= 1
    ensures r.end == Completed <==> fetch(id).Success?
    ensures fetch(id).Success? ==> r.values == [fetch(id).value]
    ensures fetch(id).Failure? ==> r.values == [] && r.end == Failed(fetch(id).error)
  {
    match fetch(id)
    case Success(dto) => Run([dto], Completed)
    case Failure(e) => Run([], Failed(e))
  }

  /** `getAllCharactersByFlow()`: the same list as `getAllCharacters`, emitted once, or the failure. */
  function GetAllCharactersByFlow(response: Result<seq<CharacterDto>>): (r: Run<seq<RaMCharacter>>)
    ensures GetAllCharacters(response).Success? ==>
      r == Run([GetAllCharacters(response).value], Completed)
    ensures GetAllCharacters(response).Failure? ==>
      r == Run([], Failed(GetAllCharacters(response).error))
  {
    match response
    case Success(dtos) => Run([MapToDomain(dtos)], Completed)
    case Failure(e) => Run([], Failed(e))
  }

  /**
    `getCharactersWithBuffer()`: every record, mapped, as its own value. The
    buffer of 10 suspends the producer when full and never drops a value, so
    it changes timing only.
   */
  function GetCharactersWithBuffer(response: Result<seq<CharacterDto>>): (r: Run<RaMCharacter>)
    ensures response.Failure? ==> r == Run([], Failed(response.error))
    ensures response.Success? ==>
      r.end == Completed && |r.values| == |response.value| &&
      forall i :: 0 <= i < |response.value| ==> r.values[i] == ToDomain(response.value[i])
  {
    match response
    case Success(dtos) => Run(MapToDomain(dtos), Completed)
    case Failure(e) => Run([], Failed(e))
  }

  // ---------------------------------------------------------------------------
  // distinctUntilChangedBy { it.id }
  // ---------------------------------------------------------------------------

  /** Whether record `i`'s id differs from its upstream predecessor's (from `previousKey` for the first). */
  predicate IdChanged(previousKey: Option<int>, dtos: seq<CharacterDto>, i: nat)
    requires i < |dtos|
  {
    if i == 0 then previousKey != Some(dtos[0].id) else dtos[i].id != dtos[i - 1].id
  }

  function IdChangeMask(previousKey: Option<int>, dtos: seq<CharacterDto>): (m: seq<bool>)
    ensures |m| == |dtos|
  {
    seq(|dtos|, i requires 0 <= i < |dtos| => IdChanged(previousKey, dtos, i))
  }

  /**
    `distinctUntilChangedBy { it.id }`: a record passes unless its id equals
    the key of the last record that passed (`previousKey`, none at first).
    Comparing with the last record that passed is the same as comparing with
    the record just before: a record is dropped exactly when its id equals
    its predecessor's.
   */
  function DistinctById(previousKey: Option<int>, dtos: seq<CharacterDto>): (r: seq<CharacterDto>)
    ensures r == Select(dtos, IdChangeMask(previousKey, dtos))
    decreases |dtos|
  {
    if dtos == [] then []
    else
      assert IdChangeMask(previousKey, dtos)[1..] == IdChangeMask(Some(dtos[0].id), dtos[1..]);
      if previousKey == Some(dtos[0].id) then DistinctById(previousKey, dtos[1..])
      else [dtos[0]] + DistinctById(Some(dtos[0].id), dtos[1..])
  }

  /** No two adjacent records of the result share an id, nor does the first share `previousKey`. */
  lemma {:induction false} DistinctByIdNoAdjacentRepeats(previousKey: Option<int>, dtos: seq<CharacterDto>)
    ensures var r := DistinctById(previousKey, dtos);
      (forall k :: 0 <= k < |r| - 1 ==> r[k].id != r[k + 1].id) &&
      (r != [] && previousKey.Some? ==> r[0].id != previousKey.value)
    decreases |dtos|
  {
    if dtos != [] {
      if previousKey == Some(dtos[0].id) {
        DistinctByIdNoAdjacentRepeats(previousKey, dtos[1..]);
      } else {
        DistinctByIdNoAdjacentRepeats(Some(dtos[0].id), dtos[1..]);
        var rest := DistinctById(Some(dtos[0].id), dtos[1..]);
        var r := [dtos[0]] + rest;
        assert forall k :: 1 <= k < |r| ==> r[k] == rest[k - 1];
      }
    }
  }

  /** `getCharactersWithDistinct()`: records without adjacent repeated ids, mapped, as separate values. */
  function GetCharactersWithDistinct(response: Result<seq<CharacterDto>>): (r: Run<RaMCharacter>)
    ensures response.Failure? ==> r == Run([], Failed(response.error))
    ensures response.Success? ==>
      r.end == Completed &&
      r.values == MapToDomain(Select(response.value, IdChangeMask(None, response.value)))
    ensures forall k :: 0 <= k < |r.values| - 1 ==> r.values[k].id != r.values[k + 1].id
  {
    match response
    case Success(dtos) =>
      DistinctByIdNoAdjacentRepeats(None, dtos);
      Run(MapToDomain(DistinctById(None, dtos)), Completed)
    case Failure(e) => Run([], Failed(e))
  }

  // ---------------------------------------------------------------------------
  // getAllCharactersWithRetry
  // ---------------------------------------------------------------------------

  /** The exception thrown on the losing side of the coin. */
  const SimulatedNetworkError: Error := UnknownHost("Simulated network error")

  /**
    `getAllCharactersWithRetry()`: `coinHeads` is `Random.nextBoolean()`.
    On heads the flow throws before calling the API; otherwise it emits the
    whole mapped response once. The flow itself does not retry.
   */
  function GetAllCharactersWithRetry(coinHeads: bool, response: Result<seq<CharacterDto>>): (r: Run<seq<RaMCharacter>>)
    ensures |r.values| <= 1
    ensures coinHeads ==> r == Run([], Failed(SimulatedNetworkError))
    ensures !coinHeads ==> r == GetAllCharactersByFlow(response)
    ensures r.values != [] ==> response.Success? && r.values == [MapToDomain(response.value)]
  {
    if coinHeads then Run([], Failed(SimulatedNetworkError))
    else GetAllCharactersByFlow(response)
  }

  // ---------------------------------------------------------------------------
  // getFavoriteCharactersFlow
  // ---------------------------------------------------------------------------

  const FavoriteIds: set<int> := {1, 2, 5}

  /** `filter { favoriteIds.contains(it.id) }`. */
  function FilterFavorites(dtos: seq<CharacterDto>): (r: seq<CharacterDto>)
    ensures forall k :: 0 <= k < |r| ==> r[k].id in FavoriteIds
    ensures forall i :: 0 <= i < |dtos| && dtos[i].id in FavoriteIds ==> dtos[i] in r
    ensures forall d :: d in r ==> d in dtos
  {
    if dtos == [] then []
    else if dtos[0].id in FavoriteIds then [dtos[0]] + FilterFavorites(dtos[1..])
    else FilterFavorites(dtos[1..])
  }

  function FavoriteMask(dtos: seq<CharacterDto>): (m: seq<bool>)
    ensures |m| == |dtos|
  {
    seq(|dtos|, i requires 0 <= i < |dtos| => dtos[i].id in FavoriteIds)
  }

  /** The filter keeps exactly the favourite records, in response order. */
  lemma {:induction false} FilterFavoritesSelects(dtos: seq<CharacterDto>)
    ensures FilterFavorites(dtos) == Select(dtos, FavoriteMask(dtos))
    ensures IsSubsequence(FilterFavorites(dtos), dtos)
  {
    if dtos != [] {
      FilterFavoritesSelects(dtos[1..]);
      assert FavoriteMask(dtos)[1..] == FavoriteMask(dtos[1..]);
    }
    SelectIsSubsequence(dtos, FavoriteMask(dtos));
  }

  /** The favourite records of one response, mapped with `isFavorite = true`. */
  function Favorites(dtos: seq<CharacterDto>): (r: seq<RaMCharacter>)
    ensures |r| == |FilterFavorites(dtos)|
    ensures forall k :: 0 <= k < |r| ==>
      r[k] == ToDomain(FilterFavorites(dtos)[k]).(isFavorite := true) && r[k].id in FavoriteIds
  {
    var favorites := FilterFavorites(dtos);
    seq(|favorites|, k requires 0 <= k < |favorites| =>
      RaMCharacter(id := favorites[k].id, name := favorites[k].name, image := favorites[k].image, isFavorite := true))
  }

  /**
    `getFavoriteCharactersFlow()`: two reads of the API, five seconds apart
    (`first`, `second`); each emits the favourites of its response. A failed
    read ends the flow with its error.
   */
  function GetFavoriteCharactersFlow(first: Result<seq<CharacterDto>>, second: Result<seq<CharacterDto>>): (r: Run<seq<RaMCharacter>>)
    ensures |r.values| <= 2
    ensures r.end == Completed <==> first.Success? && second.Success?
    ensures first.Failure? ==> r == Run([], Failed(first.error))
    ensures first.Success? && second.Failure? ==> r == Run([Favorites(first.value)], Failed(second.error))
    ensures first.Success? && second.Success? ==> r.values == [Favorites(first.value), Favorites(second.value)]
    ensures forall j, k :: 0 <= j < |r.values| && 0 <= k < |r.values[j]| ==>
      r.values[j][k].isFavorite && r.values[j][k].id in FavoriteIds
  {
    match first
    case Failure(e) => Run([], Failed(e))
    case Success(dtos1) =>
      match second
      case Failure(e) => Run([Favorites(dtos1)], Failed(e))
      case Success(dtos2) => Run([Favorites(dtos1), Favorites(dtos2)], Completed)
  }

  // ---------------------------------------------------------------------------
  // getCharacterUpdates
  // ---------------------------------------------------------------------------

  /** What reaches the flow while it is collected: callback calls and the collector stopping. */
  datatype CallbackEvent =
    | NewCharacter(character: CharacterDto)   // onNewCharacter
    | CallbackError(error: Error)             // onError
    | CollectorCancelled                      // the collecting scope is cancelled

  /** The calls `getCharacterUpdates` makes on the API. */
  datatype ApiCall = Register(callback: nat) | Unregister(callback: nat)

  /** What the collector sees and which API calls were made. */
  datatype UpdatesRun = UpdatesRun(run: Run<RaMCharacter>, apiCalls: seq<ApiCall>)

  /** The index of the first event that closes the channel, or `|events|` when none does. */
  function FirstClose(events: seq<CallbackEvent>): (c: nat)
    ensures c <= |events|
    ensures forall k :: 0 <= k < c ==> events[k].NewCharacter?
    ensures c < |events| ==> !events[c].NewCharacter?
  {
    if events == [] || !events[0].NewCharacter? then 0 else 1 + FirstClose(events[1..])
  }

  /** The records carried by a run of `onNewCharacter` calls. */
  function Carried(events: seq<CallbackEvent>): (dtos: seq<CharacterDto>)
    requires forall k :: 0 <= k < |events| ==> events[k].NewCharacter?
    ensures |dtos| == |events|
    ensures forall k :: 0 <= k < |events| ==> dtos[k] == events[k].character
  {
    seq(|events|, k requires 0 <= k < |events| => events[k].character)
  }

  /**
    What a collector of the `callbackFlow` observes: the characters of every
    `onNewCharacter` before the first closing event, in callback order, and
    an end as that event says: `onError`'s error, cancelled, or still open
    when no event closed the channel.
   */
  predicate ForwardedUntilClose(events: seq<CallbackEvent>, run: Run<RaMCharacter>)
  {
    var c := FirstClose(events);
    run.values == MapToDomain(Carried(events[..c])) &&
    (c == |events| ==> run.end == Open) &&
    (c < |events| && events[c].CallbackError? ==> run.end == Failed(events[c].error)) &&
    (c < |events| && events[c].CollectorCancelled? ==> run.end == Cancelled)
  }

  /** Forwarding one more `onNewCharacter` in front of what was forwarded after it. */
  lemma ForwardedStep(events: seq<CallbackEvent>, rest: Run<RaMCharacter>)
    requires events != [] && events[0].NewCharacter?
    requires ForwardedUntilClose(events[1..], rest)
    ensures ForwardedUntilClose(events, Run([ToDomain(events[0].character)] + rest.values, rest.end))
  {
    var c := FirstClose(events);
    assert c == 1 + FirstClose(events[1..]);
    assert events[1..][..c - 1] == events[..c][1..];
    assert Carried(events[..c]) == [events[0].character] + Carried(events[1..][..c - 1]);
    assert c < |events| ==> events[c] == events[1..][c - 1];
  }

  /**
    The channel of the `callbackFlow`: each `onNewCharacter` is forwarded
    mapped (`trySend`); `onError` closes it with the error; the collector
    stopping cancels it. Once closed, nothing more is forwarded.
   */
  function Forward(events: seq<CallbackEvent>): (run: Run<RaMCharacter>)
    ensures ForwardedUntilClose(events, run)
  {
    if events == [] then Run([], Open)
    else match events[0]
      case NewCharacter(dto) =>
        var rest := Forward(events[1..]);
        ForwardedStep(events, rest);
        Run([ToDomain(dto)] + rest.values, rest.end)
      case CallbackError(e) => Run([], Failed(e))
      case CollectorCancelled => Run([], Cancelled)
  }

  /**
    `getCharacterUpdates()`: registers `callback`, forwards the characters
    as `Forward` describes, and when the channel closes (`awaitClose`)
    unregisters the same callback, exactly once.
   */
  function GetCharacterUpdates(callback: nat, events: seq<CallbackEvent>): (r: UpdatesRun)
    ensures ForwardedUntilClose(events, r.run)
    ensures r.run.end == Open ==> r.apiCalls == [Register(callback)]
    ensures r.run.end != Open ==> r.apiCalls == [Register(callback), Unregister(callback)]
  {
    var run := Forward(events);
    UpdatesRun(run, [Register(callback)] + (if run.end == Open then [] else [Unregister(callback)]))
  }
}
