# Event bus registry, modelled in Dafny

`createEventBus` (src/index.ts) returns an object with four functions —
`on`, `once`, `emit`, `clear` — that share one private table: an object from
event name to an array of handlers, created as `{ "*": [] }`. The name `"*"`
is reserved for wildcard handlers, which `emit` calls for every event with
`{ eventName, payload }`. `on` and `once` return closures that unsubscribe.

This project models that table and its operations:

- **registry.dfy** (module `Registry`) describes the table as a value.
  - `Table` is `map<string, seq<Callback>>`.
  - A `Callback` is either a caller's handler `User(id)`, known only by
    its identity, or the forwarding closure `Helper(serial, target, key)`
    that `once` creates.
  - An unsubscribe closure is a `Token(key, target)`: the list it reads and
    the callback it filters out with `!==`.
  - Each operation is a function: `Subscribed`, `Unsubscribed`, `Cleared`
    and `Fired` (the side effect of calling one callback). `EmitTrace` and
    `EmitState` give the calls an emit makes and the table it leaves behind.
    Lemmas state what the code promises about them.
- **bus.dfy** (module `Bus`) has the class `EventBus`.
  - Its field `bus` is the table. Its methods change the field in place, as
    the inner functions of `createEventBus` do.
  - `Emit` runs the two `forEach` loops through `Walk`, a `while` loop over
    the array read. It returns the trace of calls made.
  - Each method is proved to leave `bus` as the matching `Registry`
    function says.
  - The class invariant `Valid` holds three facts: the wildcard list is
    present, each once-wrapper sits only in the list of the name it clears,
    and every stored wrapper is numbered below the counter `serials`. The
    last fact is what lets `Once` promise that its new wrapper equals no
    stored callback.
- **scenarios.dfy** (module `Scenarios`) replays the situations that
  src/index.test.ts exercises, plus the edge cases below. Each one is a
  lemma over the table that a sequence of calls builds, and a method that
  makes those calls on a fresh `EventBus`.

Choices the code forces:

- **`clear` tests truthiness.** `clear("")` therefore behaves like
  `clear()`. The clear-all loop gives every name except `""` a fresh empty
  array.
- **Once-wrappers are distinct.** `once` creates a new closure on every
  call. The model numbers wrappers with a per-bus counter, and `Once`
  proves that the new wrapper equals no callback already stored.
- **Callbacks only empty lists.** Calling callbacks, and so emitting, never
  adds, moves or reorders an entry: each list afterwards is either as it
  was or empty, and no name disappears.
- **Dispatch walks snapshots.** `emit` walks the wildcard array it found
  when it started, even if a wrapper replaces that array. Only then does it
  read the event's own array, and it walks that one the same way. `clear`
  and unsubscribing assign new arrays instead of mutating the old ones, so
  dispatch never skips a callback.

## Model

| member | source | states |
|---|---|---|
| Bus.EventBus.constructor | src/index.ts:57-58 | a new bus holds exactly one name, `"*"`, with an empty list, and no wrapper has been created yet |
| Bus.EventBus.Register | src/index.ts:74-86 | the push in `on`: the callback goes to the end of the name's list (created if absent, `"*"` included); no other list changes; the invariant holds |
| Bus.EventBus.On | src/index.ts:70-97 | `on(k, h)` appends `h` to `k`'s list and returns the token that filters `h` from `k`'s list |
| Bus.EventBus.Once | src/index.ts:107-134 | `once(k, h)` appends a new wrapper for `h` that equals no stored callback, and returns a token that filters the raw `h`, not the wrapper |
| Bus.EventBus.OnceIntended | src/index.ts:125-133 | corrected `once`: the returned token filters the stored wrapper, so invoking it takes the registration back and restores `k`'s list |
| Bus.EventBus.Unsubscribe | src/index.ts:88-96 | invoking a token replaces the list by the filtered copy when the list holds the callback, and otherwise leaves the table alone |
| Bus.EventBus.Clear | src/index.ts:148-159 | a truthy name gets an empty list; otherwise every present name except `""` gets one; the invariant holds |
| Bus.EventBus.Invoke | src/index.ts:112-122 | calling a caller's handler leaves the table; calling a wrapper forwards and then performs `clear(key)` |
| Bus.EventBus.Walk | src/index.ts:138-145 | one `forEach`: one call per entry of the snapshot, in order, with the same argument; the new table is the side effect of each call applied in that order |
| Bus.EventBus.Emit | src/index.ts:136-146 | the returned calls are the wildcard snapshot with `{e, p}`, then `e`'s list as read after that phase, with `p`; the new table is every callback's side effect applied in that order |
| Registry.Subscribed | src/index.ts:74-86 | the result has the old names plus `k`; `k`'s list is the old list (or empty) followed by `c`; every other list is unchanged |
| Registry.Without | src/index.ts:92-94 | the filtered list omits `c`, holds only elements of the input, and keeps every other element with its multiplicity |
| Registry.WithoutAppend | src/index.ts:92-94 | filtering distributes over concatenation, so the order of what remains is kept |
| Registry.WithoutAbsent | src/index.ts:89-94 | filtering out a callback the list does not hold returns the same list |
| Registry.Unsubscribed | src/index.ts:88-96 | the names are unchanged; the token's list becomes its filtered copy; every other list is unchanged |
| Registry.UnsubscribeRemovesAll | src/index.ts:88-96 | every entry equal to the callback goes, each other entry keeps its multiplicity, and a second invocation changes nothing |
| Registry.UnsubscribeUndoesSubscribe | src/index.ts:83-95 | subscribing a callback the list does not hold, then invoking its token, restores the list |
| Registry.OnceTokenKeepsWrapper | src/index.ts:116-133 | the token from `once` leaves the stored wrapper in the list |
| Registry.Cleared | src/index.ts:148-159 | a truthy name gets an empty list (created if absent) and all else is unchanged; `""` or no name empties every present list except the one named `""` |
| Registry.ClearedKeepsInvariant | src/index.ts:148-159 | clearing never moves a wrapper to another name and adds no wrapper numbered at or above `n` |
| Registry.UnsubscribeAfterClear | src/index.ts:88-96 | after `clear(k)` or `clear()`, a token for a non-empty name changes nothing |
| Registry.Fired | src/index.ts:111-123 | calling a caller's handler leaves the table; a wrapper for a non-empty name empties that name's list (creating it if absent) and keeps every other list; a wrapper for `""` empties every present list except `""`'s |
| Registry.FiredAll | src/index.ts:138-145 | calling a sequence of callbacks removes no name and leaves each list either as it was or empty |
| Registry.Deliveries | src/index.ts:138-145 | a `forEach` over a snapshot makes one call per entry, in order, each with the same argument |
| Registry.WildPhase | src/index.ts:137-141 | the wildcard phase of an emit removes no name and leaves each list either as it was or empty |
| Registry.EmitTrace | src/index.ts:136-146 | an emit makes one call per wildcard entry, in order, each with `{e, p}`, and then one call per entry of `e`'s list as read after that phase, each with `p` alone |
| Registry.EmitState | src/index.ts:136-146 | an emit removes no name and leaves each list either as it was or empty |
| Registry.FiredAllKeepsInvariant | src/index.ts:111-123 | calling any sequence of callbacks keeps every wrapper in its own list and adds no wrapper numbered at or above `n` |
| Registry.FiredAllTouchesOnly | src/index.ts:112-122 | callbacks whose wrappers all clear one non-empty name leave every other name, and whether it is present, as it was |
| Registry.WildPhaseKeepsOtherLists | src/index.ts:137-143 | for `e != "*"`, reading `e`'s list after the wildcard phase sees the list as it was when `emit` was called |
| Registry.FiredAllEmpties | src/index.ts:118-121 | a snapshot holding a wrapper for a non-empty name leaves that name's list empty, whatever is called after it |
| Registry.FiredAllUsers | src/index.ts:138-145 | calling only caller handlers leaves the table as it was |
| Registry.EmitWithoutWrappers | src/index.ts:136-146 | an emit that reaches no wrapper leaves the table as it was |
| Registry.EmitOrder | src/index.ts:136-146 | for `e != "*"`, the calls are each wildcard entry in order with `{e, p}`, then each entry of `e`'s list in order with `p`; with no list for `e`, only wildcard calls happen |
| Registry.EmitCallsEveryEntry | src/index.test.ts:34-44 | the callbacks called are the wildcard list followed by `e`'s list, so a handler registered twice is called twice |
| Registry.EmitWildcardName | src/index.ts:136-146 | `emit("*", p)` with no wrapper walks the wildcard list twice: with `{"*", p}`, then with `p` |
| Registry.EmitWildcardNameWithWrapper | src/index.ts:111-116 | a wildcard wrapper clears the list during the first walk of `emit("*", p)`, so the second walk calls nothing |
| Registry.EmitKeepsInvariant | src/index.ts:136-146 | emitting keeps every wrapper in its own list and adds no wrapper numbered at or above `n` |
| Registry.EmitTouchesOnly | src/index.ts:136-146 | for non-empty `e != "*"`, an emit leaves every name other than `"*"` and `e` present or absent as before, with the same list |
| Registry.FiredAllWipes | src/index.ts:118-121 | a snapshot holding a wrapper for `""` empties every other present list, because its `clear("")` takes the clear-all path |
| Registry.OnceOnEmptyNameWipesBus | src/index.ts:149-157 | an emit of `""` that reaches a `once("", h)` wrapper empties every other list of the bus, the wildcard list included |
| Registry.OnceEmptiesItsList | src/index.ts:118-121 | an emit that reaches a wrapper of a non-empty name `e` leaves `e`'s list empty |
| Registry.OnceEmptiesWildcard | src/index.ts:112-115 | an emit that reaches a wildcard wrapper leaves the wildcard list empty |
| Registry.OnceNotCalledAgain | src/index.test.ts:46-55 | after an emit of non-empty `e` reaches a wrapper, the next emit of `e` calls only wildcard entries |
| Registry.ClearOneSilencesEvent | src/index.test.ts:87-94 | after `clear(e)` with non-empty `e`, an emit of `e` calls only the wildcard entries |
| Registry.ClearAllSilencesBus | src/index.test.ts:96-103 | after `clear()`, an emit of any non-empty name calls nothing |
| Registry.ClearedIntended | src/index.ts:148-159 | corrected `clear`: a given name, `""` included, gets an empty list; no name empties every list; it agrees with `Cleared` everywhere except on `""` |
| Registry.FiredIntended | src/index.ts:118-121 | corrected wrapper: after forwarding it removes only itself from its list, and every other list and entry stays |
| Scenarios.SilentAfterOnce | src/index.ts:118-121 | with no wildcard handlers, once an emit of non-empty `k` reaches a wrapper, the next emit of `k` calls nothing |
| Scenarios.EmitPlain | src/index.ts:136-146 | on a table with no wrapper, an emit calls the wildcard list then `k`'s list, and changes nothing |
| Scenarios.Isolation | src/index.test.ts:105-112 | subscribing on one bus does not make an emit on another bus call anything |
| Scenarios.DeliversPayloadTable | src/index.test.ts:16-32 | after `on(k, h)`, `emit(k, p)` makes exactly one call, of `h`, with `p` |
| Scenarios.DeliversPayload | src/index.test.ts:16-32 | the same, on an `EventBus` |
| Scenarios.FanOutTable | src/index.test.ts:34-44 | two `on` calls give two calls in registration order; the same handler twice runs twice |
| Scenarios.FanOut | src/index.test.ts:34-44 | the same, on an `EventBus` |
| Scenarios.OnceRunsOnceTable | src/index.test.ts:46-55 | after `once(k, h)` with non-empty `k`, the first emit calls the wrapper and the second calls nothing |
| Scenarios.OnceRunsOnce | src/index.test.ts:46-55 | the same, on an `EventBus`; `h` runs once in total |
| Scenarios.OnceOnEmptyNameTable | src/index.ts:118-121 | `once("", h)`: the wrapper's `clear("")` leaves the table as it was, so both emits call `h` |
| Scenarios.OnceOnEmptyNameRepeats | src/index.ts:118-121 | the same, on an `EventBus`; `h` runs twice |
| Scenarios.OnceDropsNeighboursTable | src/index.ts:118-121 | after `on(k, g)` and `once(k, h)`, the first emit calls both and the wrapper's `clear(k)` removes `g` too, so the second emit calls nothing |
| Scenarios.OnceDropsNeighbours | src/index.ts:118-121 | the same, on an `EventBus`; `g` runs only once |
| Scenarios.WildcardWrappersTable | src/index.ts:137-140 | two wildcard wrappers both run on the first emit, though the first has already cleared the list; the second emit calls nothing |
| Scenarios.WildcardOnceWrappersAllRun | src/index.ts:137-140 | the same, on an `EventBus` |
| Scenarios.UnsubscribeTable | src/index.test.ts:57-66 | after `on(k, h)` and its token, an emit calls nothing, and invoking the token again changes nothing |
| Scenarios.UnsubscribeStopsHandler | src/index.test.ts:57-66 | the same, on an `EventBus` |
| Scenarios.UnsubscribeTwice | src/index.ts:88-96 | invoking the token twice, then emitting, calls nothing |
| Scenarios.OnceTokenTable | src/index.ts:125-133 | after `once(k, h)` and its token, an emit still calls the wrapper |
| Scenarios.OnceTokenMissesWrapper | src/index.ts:125-133 | the same, on an `EventBus`; `h` runs once |
| Scenarios.OnceWrapperTokenTable | src/index.test.ts:68-77 | a token that filters the stored wrapper stops `h` before it runs |
| Scenarios.OnceWrapperTokenCancels | src/index.test.ts:68-77 | the same, on an `EventBus`, with the token returned by the corrected `once` |
| Scenarios.WildcardTable | src/index.test.ts:79-85 | a wildcard handler gets one call with `{k, p}` for an emit of any other name, and the table is unchanged |
| Scenarios.WildcardSeesEveryName | src/index.test.ts:79-85 | the same handler sees two emits of two names, in order |
| Scenarios.ClearOneNameTable | src/index.test.ts:87-94 | after `clear(k)`, an emit of `k` calls nothing, while the handler of another name still runs |
| Scenarios.ClearOneName | src/index.test.ts:87-94 | the same, on an `EventBus` |
| Scenarios.ClearEverything | src/index.test.ts:96-103 | after `clear()`, an emit of a non-empty name calls nothing, wildcard handlers included |

## Left out

- Handler bodies are opaque identities. Their only modelled effect is the once-wrapper's `clear(key)`. Other effects are not modelled, nor are exceptions thrown out of `emit`.
- Calls to `on`, `once`, a token or `clear` made from inside a handler during an emit are not modelled. The only exception is the wrapper's own `clear`. With such calls, `push` during a `forEach` would extend the array being walked.
- Names are strings. A numeric key such as `0`, which the truthiness tests would also treat as missing, is not modelled. Neither are names inherited from `Object.prototype`, which `in`-style lookups and `for...in` could see.
- The TypeScript overload signatures and mapped types (src/index.ts:23-55) have no runtime effect and are left out.
- The order in which the clear-all loop visits names is not modelled. Every name it visits gets the same empty list, so the order has no effect.
- Handler identity is modelled as a `nat`. Two `on` calls with the same identity model passing the same function object twice.

## Findings

`EventBus` follows the code as written; the "as-written" members below are
about that class and the `Registry` functions it is proved against. The
corrected members are separate definitions, with the intended behaviour
proved about them.

| source | as written | input that shows it | evidently intended | confidence | as-written member | corrected member |
|---|---|---|---|---|---|---|
| src/index.ts:125-133 | the token from `once` filters the raw `handler`, which `once` never stored | `once("data", h)`, invoke the token, `emit("data", p)`: `h` is still called (src/index.test.ts:68-77 expects it not to be) | the token filters the wrapper that `once` registered (`Scenarios.OnceWrapperTokenCancels` uses it) | high; not executed | Scenarios.OnceTokenMissesWrapper | Bus.EventBus.OnceIntended |
| src/index.ts:118-121 | after forwarding, the wrapper calls `clear(eventName)`, which empties the whole list | `on("data", g)`, `once("data", h)`, emit twice: `g` is called only once | the wrapper removes only itself | medium; not executed | Scenarios.OnceDropsNeighboursTable | Registry.FiredIntended |
| src/index.ts:149 | `clear` tests truthiness, so `clear("")` takes the clear-all path, which skips `""` and empties every other list (`Registry.OnceOnEmptyNameWipesBus`) | `once("", h)`, emit `""` twice: `h` is called twice; with `on("data", g)` also registered, the first emit of `""` empties the list of `"data"` and the wildcard list | `clear("")` empties the list of `""`, as it does for every other name | medium; not executed | Scenarios.OnceOnEmptyNameTable | Registry.ClearedIntended |
