# Flow lesson: timed operators, character repository and view models

This project models, in Dafny, the parts of the "otus flow lesson" Android
application that carry logic:

- the hand-written Kotlin flow operators of the practice test suite
  (`distinctUntilTime`, `throttleFirst`, `throttleFirstV2`), the generators
  `flowOfNumbers` and `flowOfAnimals`, and the two scenarios that run the
  operators (`flow_customOperator`, `flow_customOperator_ver2`);
- `CharactersRepository`, which turns answers of the Rick and Morty character
  API into domain characters and into the flows the screens collect;
- the two view models, `CharactersViewModel` and `FinishCharactersViewModel`,
  as state machines over `CharactersState`.

## How the system is modelled

- **Flows.** A flow is modelled by what one collector observes: the values in
  order, then how the collection ended (`Streams.Run`: completed, failed with
  an error, cancelled, or still open). Order-preserving filtering is
  `Streams.Select` over a sequence of pass/drop flags, and
  `Streams.IsSubsequence` states "a subsequence, same order".
- **Time.** `System.currentTimeMillis()` and `delay` are not modelled as a
  clock. Each upstream value reaches an operator as `Timed(clock, value)`,
  the clock being the reading the operator takes for it. Readings are inputs,
  and nothing requires them to increase. The generators place their values
  on an idealised clock: `delay(ms)` moves it by `ms`, or by nothing when
  `ms <= 0`.
- **Network.** Every API call is an input: a `Result` for
  `getCharacters()`, a function from id to `Result` for
  `getCharacterById(id)`, and a sequence of callback events
  (`onNewCharacter`, `onError`, collector cancelled) for the callback API.
  The coin of `getAllCharactersWithRetry` (`Random.nextBoolean()`) is a
  `bool` input.
- **View models.** Each is a `class` with a `state` field.
  `FinishCharactersViewModel` also has `dialogEvents`, the FIFO queue of its
  `Channel<String>`. A launched coroutine is modelled by the method that runs
  when its request completes, with the API's answer as its argument. Events
  are applied one at a time.
- **Window of `distinctUntilTime`.** The operator moves `lastValue` and
  `lastTime` on every upstream value, emitted or not (FlowPractice.kt lines
  537-538), so the window is measured from the previous upstream value, not
  from the previous emission. `FlowPractice.DistinctWindowFollowsUpstream`
  shows a value repeated every 200 ms under a 300 ms window: it is emitted
  once, although its third copy arrives 400 ms after that emission.
- **The start clock of `distinctUntilTime`.** `lastTime` starts at the clock
  read when collection begins (FlowPractice.kt line 531). That reading never
  matters: `lastValue` starts as null, so the first value passes before any
  clock is compared, and every later value is compared with its predecessor.
  The contract of `FlowPractice.DistinctUntilTime` therefore does not mention
  `start`.
- **`distinctUntilChangedBy { it.id }`** (library operator) is modelled as
  the library defines it: a value is compared with the key of the last value
  that passed. The contract of `Repository.DistinctById` states that this is the
  same as comparing with the value just before it.

Files: `Streams.dfy` (shared types and selection), `FlowPractice.dfy`,
`Repository.dfy`, `Presentation.dfy` (`CharactersState` and its state
changes), `ViewModel.dfy`, `FinishViewModel.dfy`.

## Model

| member | source | states |
|---|---|---|
| `FlowPractice.DistinctUntilTime` | app/src/test/java/ru/otus/flow/finish/FlowPractice.kt:529-541 | the emitted values are exactly the upstream values that pass, in upstream order. A value passes iff it is the first, differs from the upstream value before it, or comes at least `time` ms after that value. The output is a subsequence of the input and does not depend on the start clock |
| `FlowPractice.DistinctFirstPasses` | app/src/test/java/ru/otus/flow/finish/FlowPractice.kt:532-535 | because `lastValue` starts as null, the first upstream value is always the first emitted value, whatever the clock readings |
| `FlowPractice.DistinctEmitsChange` | app/src/test/java/ru/otus/flow/finish/FlowPractice.kt:534-535 | a value that differs from the upstream value just before it is always emitted, right after everything emitted before it |
| `FlowPractice.DistinctSteadyRunPassesOnce` | app/src/test/java/ru/otus/flow/finish/FlowPractice.kt:534-538 | a run of equal values, each less than `time` ms after the previous one, contributes only its first element, however long the run lasts, wherever the run starts: at the first value, at a change of value, or after a gap of at least `time` ms |
| `FlowPractice.DistinctRunRestartsAfterGap` | app/src/test/java/ru/otus/flow/finish/FlowPractice.kt:534-538 | a repeated value passes again once it comes at least `time` ms after its predecessor: v at 0, 400, 500 and 600 ms under a 300 ms window emits v twice |
| `FlowPractice.DistinctWindowFollowsUpstream` | app/src/test/java/ru/otus/flow/finish/FlowPractice.kt:537-538 | the reference time moves on every upstream value: v at 0, 200 and 400 ms under a 300 ms window emits v once |
| `FlowPractice.ThrottleDecision` | app/src/test/java/ru/otus/flow/finish/FlowPractice.kt:545-550 | element j passes iff its clock is at least `periodMillis` after the last element that passed before it, or after the initial `lastTime` when none did |
| `FlowPractice.ThrottleSpacing` | app/src/test/java/ru/otus/flow/finish/FlowPractice.kt:547-549 | the clocks of two consecutive emitted values are at least `periodMillis` apart |
| `FlowPractice.ThrottleFirstValuePasses` | app/src/test/java/ru/otus/flow/finish/FlowPractice.kt:544-547 | with `lastTime` starting at 0, a first value read at a clock of at least `periodMillis` is emitted first |
| `FlowPractice.ThrottleFirst` | app/src/test/java/ru/otus/flow/finish/FlowPractice.kt:543-552 | emits exactly the values the throttle decisions pass, starting from `lastTime` 0, and the output is a subsequence of the input |
| `FlowPractice.ThrottleFirstV2` | app/src/test/java/ru/otus/flow/finish/FlowPractice.kt:554-563 | a passing value goes through the channel of `channelFlow`. For every schedule of the receiving collector, the collector gets exactly what `ThrottleFirst` emits |
| `FlowPractice.FlowOfNumbers` | app/src/test/java/ru/otus/flow/finish/FlowPractice.kt:407-414 | emits 1..n in ascending order (nothing when n < 1). The k-th value is read after k pauses of `delay` |
| `FlowPractice.FlowOfAnimals` | app/src/test/java/ru/otus/flow/finish/FlowPractice.kt:416-433 | emits exactly Cat, Dog, Fish, Bird, each after one more pause of `delay` |
| `FlowPractice.CustomOperator` | app/src/test/java/ru/otus/flow/finish/FlowPractice.kt:495-514 | Cat and Dog at t0, then Dog, Fish, Fish, Fish and Bird at t0+310, through `distinctUntilTime(300)`, collect Cat, Dog, Dog, Fish, Bird |
| `FlowPractice.CustomOperatorVer2` | app/src/test/java/ru/otus/flow/finish/FlowPractice.kt:516-527 | `flowOfNumbers(10, 100)` through `throttleFirst(300)`, on a clock whose first reading is at least 300, processes exactly 1, 4, 7, 10 |
| `FlowPractice.TenNumbersThrottled` | app/src/test/java/ru/otus/flow/finish/FlowPractice.kt:521-525 | when the first reading is at least 300 ms, the throttle decisions for ten values 100 ms apart with a 300 ms period pass 1, 4, 7 and 10 |
| `Repository.ToDomain` | app/src/main/java/ru/otus/flow/domain/CharactersRepository.kt:152-156 | copies id, name and image, so the record can be rebuilt from the character. `isFavorite` keeps its default, false |
| `Repository.MapToDomain` | app/src/main/java/ru/otus/flow/domain/CharactersRepository.kt:21-27 | one character per record, in response order, each the record's `toDomain()` |
| `Repository.GetAllCharacters` | app/src/main/java/ru/otus/flow/domain/CharactersRepository.kt:19-28 | fails exactly when the API call fails, with its error. On success: one character per record, in response order, with id, name and image copied |
| `Repository.GetCharacterById` | app/src/main/java/ru/otus/flow/domain/CharactersRepository.kt:30-34 | emits at most one value. It completes iff the API answers, and then emitted exactly the API's record for that id. Otherwise it emitted nothing and failed with the API's error |
| `Repository.GetAllCharactersByFlow` | app/src/main/java/ru/otus/flow/domain/CharactersRepository.kt:36-48 | emits once the same list `getAllCharacters` returns and completes, or emits nothing and fails with the same error |
| `Repository.GetCharactersWithBuffer` | app/src/main/java/ru/otus/flow/domain/CharactersRepository.kt:65-77 | emits every record mapped to a character, as separate values in response order, none dropped, then completes. On API failure it emits nothing and fails |
| `Repository.DistinctById` | app/src/main/java/ru/otus/flow/domain/CharactersRepository.kt:100 | comparing with the last passed key keeps exactly the records whose id differs from their predecessor's (the first always): a record is dropped only when its id equals its predecessor's |
| `Repository.DistinctByIdNoAdjacentRepeats` | app/src/main/java/ru/otus/flow/domain/CharactersRepository.kt:100 | no two adjacent records of the result share an id |
| `Repository.GetCharactersWithDistinct` | app/src/main/java/ru/otus/flow/domain/CharactersRepository.kt:96-103 | emits the mapped records whose id differs from their predecessor's, in order, then completes. No two adjacent emitted characters share an id. On API failure it emits nothing and fails |
| `Repository.GetAllCharactersWithRetry` | app/src/main/java/ru/otus/flow/domain/CharactersRepository.kt:105-111 | emits at most one list. On heads it fails with the simulated UnknownHostException and emits nothing. Otherwise it behaves as `getAllCharactersByFlow`. Any emitted list is the full mapped response |
| `Repository.FilterFavorites` | app/src/main/java/ru/otus/flow/domain/CharactersRepository.kt:119-123 | keeps only records whose id is in {1, 2, 5}, keeps every such record, and invents none |
| `Repository.FilterFavoritesSelects` | app/src/main/java/ru/otus/flow/domain/CharactersRepository.kt:122-123 | the favourite filter keeps exactly the records with a favourite id, in response order, as a subsequence of the response |
| `Repository.Favorites` | app/src/main/java/ru/otus/flow/domain/CharactersRepository.kt:122-131 | one character per favourite record, in order, with id, name and image copied and `isFavorite = true` |
| `Repository.GetFavoriteCharactersFlow` | app/src/main/java/ru/otus/flow/domain/CharactersRepository.kt:114-147 | when both reads succeed it emits exactly two lists, the favourites of each response, and completes. A failed read ends the flow with its error after the lists already emitted. Every emitted character is a favourite with id in {1, 2, 5} |
| `Repository.GetCharacterUpdates` | app/src/main/java/ru/otus/flow/domain/CharactersRepository.kt:79-94 | the collector receives the mapped character of every `onNewCharacter` before the first closing event, in callback order, and the flow fails with `onError`'s error, is cancelled, or stays open when nothing closed it. It registers the callback first. Once the flow is closed (by an error or by the collector) it unregisters that same callback, exactly once. While open, only the registration has happened |
| `Repository.Forward` | app/src/main/java/ru/otus/flow/domain/CharactersRepository.kt:81-89 | the collector receives the mapped character of every `onNewCharacter` before the first closing event, in callback order. The flow fails with `onError`'s error, is cancelled, or stays open when nothing closed it |
| `Repository.FirstClose` | app/src/main/java/ru/otus/flow/domain/CharactersRepository.kt:86-88 | the first event that closes the channel: every earlier event is an `onNewCharacter` |
| `Presentation.LoadingState` | app/src/main/java/ru/otus/flow/presentation/finish/FinishCharactersViewModel.kt:31-35 | empty items, loading, no error, and the default dialog fields: no dialog, empty message |
| `Presentation.LoadedState` | app/src/main/java/ru/otus/flow/presentation/CharactersViewModel.kt:49-63 | a freshly built state: not loading, no dialog, empty message. The error flag is set iff the load failed. The items are the characters on success and empty on failure |
| `Presentation.ClickFailed` | app/src/main/java/ru/otus/flow/presentation/CharactersViewModel.kt:35-37 | raises `isError` and changes nothing else |
| `Presentation.DialogShown` | app/src/main/java/ru/otus/flow/presentation/CharactersViewModel.kt:38-42 | shows the dialog with the given name. Items, loading and error flags are unchanged |
| `Presentation.Dismissed` | app/src/main/java/ru/otus/flow/presentation/CharactersViewModel.kt:73-78 | hides the dialog and clears its message. Items, loading and error flags are unchanged |
| `Presentation.DismissIdempotent` | app/src/main/java/ru/otus/flow/presentation/CharactersViewModel.kt:74-77 | dismissing twice is the same as dismissing once |
| `Presentation.ShowThenDismiss` | app/src/main/java/ru/otus/flow/presentation/CharactersViewModel.kt:38-42 | showing a dialog and then dismissing it leaves the dismissed original state |
| `ViewModel.CharactersViewModel.constructor` | app/src/main/java/ru/otus/flow/presentation/CharactersViewModel.kt:18-26 | the initial state is empty items, loading, no error, no dialog |
| `ViewModel.CharactersViewModel.RequestCharacters` | app/src/main/java/ru/otus/flow/presentation/CharactersViewModel.kt:47-65 | the state becomes the freshly built load result for the API's answer: characters with no error, or empty with an error. It is never loading, and the dialog is reset |
| `ViewModel.CharactersViewModel.Refresh` | app/src/main/java/ru/otus/flow/presentation/CharactersViewModel.kt:28-30 | the same end state as `requestCharacters`. The loading flag is not raised again |
| `ViewModel.CharactersViewModel.RequestCharactersWithFlow` | app/src/main/java/ru/otus/flow/presentation/CharactersViewModel.kt:67-71 | leaves the state unchanged |
| `ViewModel.CharactersViewModel.HandleClick` | app/src/main/java/ru/otus/flow/presentation/CharactersViewModel.kt:32-45 | on success the dialog shows the character's name and items, loading and error are unchanged. On failure only `isError` is raised |
| `ViewModel.CharactersViewModel.DialogDismoss` | app/src/main/java/ru/otus/flow/presentation/CharactersViewModel.kt:73-78 | hides the dialog and clears its message and keeps every other field |
| `FinishViewModel.FinishCharactersViewModel.constructor` | app/src/main/java/ru/otus/flow/presentation/finish/FinishCharactersViewModel.kt:22-39 | the state starts as `loadingState()` and no dialog event is waiting |
| `FinishViewModel.FinishCharactersViewModel.RequestCharacters` | app/src/main/java/ru/otus/flow/presentation/finish/FinishCharactersViewModel.kt:61-77 | the same two end states as in `CharactersViewModel`. No dialog event is added or removed |
| `FinishViewModel.FinishCharactersViewModel.Refresh` | app/src/main/java/ru/otus/flow/presentation/finish/FinishCharactersViewModel.kt:41-43 | exactly `requestCharacters`; the loading flag is not raised again |
| `FinishViewModel.FinishCharactersViewModel.RequestCharactersWithFlow` | app/src/main/java/ru/otus/flow/presentation/finish/FinishCharactersViewModel.kt:79-97 | collecting `getAllCharactersByFlow` and catching its failure ends in the same state as `requestCharacters` for the same API answer |
| `FinishViewModel.FinishCharactersViewModel.HandleClick` | app/src/main/java/ru/otus/flow/presentation/finish/FinishCharactersViewModel.kt:45-59 | on success the character's name is appended to the end of the dialog-event queue and the state is unchanged. On failure only `isError` is raised and no event is sent |
| `FinishViewModel.FinishCharactersViewModel.ReceiveDialogEvent` | app/src/main/java/ru/otus/flow/presentation/finish/FinishCharactersViewModel.kt:23-24 | the collector of `dialogEvents` receives the oldest waiting event, first in first out, or nothing when none is waiting. The state is unchanged |

## Left out

- The demonstrations of library operators in FlowPractice.kt (channels and their capacities, `buffer`, `debounce`, `flatMapConcat`/`Merge`/`Latest`, `transformLatest`, `zip`/`combine`/`merge`, `callbackFlow` and `channelFlow` tests, `MutableSharedFlow`, `MutableStateFlow`): their meaning lies in kotlinx.coroutines and its scheduler, which is not part of this model.
- The comment above `flow_distinctUntilChangedBy_ver2` claims that 3 and 4 are dropped. The keys alternate Odd, Even, Odd, Even, Odd, so `distinctUntilChangedBy { it.type }` passes all five. That test is not modelled.
- DistinctUntilTime: the source reads the clock twice per value, for the test and again after `emit` returns. The model uses one reading for both, so time spent in the downstream collector is not modelled.
- DistinctUntilTime: values are taken as non-null. For a nullable `T`, a null first value would meet the null `lastValue`, and only then would the start clock decide.
- ThrottleFirstV2: the channel's default capacity (64) only suspends the producer when full and changes no value. The model's channel is unbounded.
- ThrottleFirst: clock readings are unbounded integers, so the subtraction `currentTime - lastTime` on `Long` (FlowPractice.kt:547, and likewise in `throttleFirstV2`) cannot wrap.
- DistinctUntilTime: clock readings are unbounded integers, so the subtraction `System.currentTimeMillis() - lastTime` on `Long` (FlowPractice.kt:534) cannot wrap.
- FlowOfNumbers, FlowOfAnimals: the `withLog` printing is omitted, and `delay` moves an idealised clock.
- CustomOperatorVer2: it requires the first clock reading to be at least 300 ms, as any wall-clock reading is. The stray `flowOfNumbers(n = 10, delay = 100)` at line 521 builds a cold flow that is never collected, so it has no effect and is not modelled.
- `searchCharacters` (CharactersRepository.kt:50-62): the filtering by name happens on the server, so it is the same one-shot mapping as `getAllCharactersByFlow` and is not modelled separately.
- GetCharacterUpdates: `trySend` silently drops a value when the channel's buffer (64 by default) is full. The model assumes the collector keeps up and forwards every value until the channel closes.
- GetFavoriteCharactersFlow: the `onStart` log line and the five-second `delay` between the two reads are not modelled.
- `RAMRetrofitService` is network I/O. Its answers are inputs, and its register/unregister no-ops appear only as the log of calls `getCharacterUpdates` makes.
- The view models' concurrency: `viewModelScope.launch` lets requests and clicks overlap. The model applies each completed request or click as one event.
- FinishViewModel.FinishCharactersViewModel.HandleClick: the rendezvous `Channel<String>()` suspends the sender until the screen receives. The model queues the name, which keeps the same first-in-first-out order of delivery.
- ViewModel.CharactersViewModel.HandleClick: `LiveData.value` may be null in Kotlin; the model's state is never null.
- The UI, its wiring and dependency injection (fragments, Compose screen, adapter, view holder, view-model factory), the unused `UiEvent`, and the empty practice stubs under `start/`.
