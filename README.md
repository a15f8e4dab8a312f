# Element proxy and callable registry of the Lynx worklet runtime, in Dafny

This project models the two stateful components that carry the logic of the
main-thread side of `lynx-stack`'s animation support, and proves properties of
the model.

**Element** (`packages/react/worklet-runtime/src/api/element.ts`) is the
main-thread view of one native UI node. Its writes go straight to the native
layer: `setAttribute`, `setStyleProperty` (under the kebab-case name),
`setStyleProperties`, the `style` setter, the `style` proxy's `set` trap, the
named style setters and `invoke`. It keeps a style cache (a `Map` keyed by the
original names) for synchronous style reads. `getComputedStyle` merges that
cache over a fixed table of defaults. `querySelector` and `querySelectorAll`
wrap native matches in fresh Elements. Every write arms one deferred
`__FlushElementTree` per turn through a flag that all Elements share.

**Callable registry** (`packages/motion-lynx/src/registeredFunction.ts`) maps
numeric handles to callables. `registerCallable` issues `++globalIdCounter`.
`runOnRegistered` is a plain lookup. The `useRegistered` hook keeps a ref and a
memo keyed on the callable's identity, and it writes into the map only on the
main thread.

## How the model is built

- `CssName`: the name conversion as pure functions, in the source's two steps
  (hyphenate capitals, then lower-case).
- `StyleMap`: an insertion-ordered table (`seq` of pairs). For the `Map` of
  the cache this is exact: a new key goes last, and setting an existing key
  keeps its position. The same table also stands for the plain objects that
  `getComputedStyle` and the `style` getter build. For those it gives the
  right value under every key, but not always the right key order. A
  JavaScript object lists integer-like keys (such as `"0"`) first, in numeric
  order, before its other keys. The table keeps them in insertion order.
- `Native`: node references, values and the native calls, recorded as events
  `SetAttr`, `InlineStyle`, `InvokeUI` and `Flush`.
- `WorkletRuntime`: the scheduler as pure functions on a `World`. A `World` is
  the native trace, `willFlush` and the number of queued flush callbacks (the
  microtask queue). Class `Runtime` holds that state, and every Element
  references the same `Runtime`. Its methods are proved equal to the pure
  functions. `Runtime.Valid()` is the scheduler invariant: exactly one callback
  is queued when `willFlush` is set, and none otherwise. The constructor
  establishes it, and every method that writes requires it and keeps it. Running the microtask queue is an explicit step, `RunMicrotasks`.
- `ComputedStyles`: the default table and the merge.
- `ElementProxy`: class `Element`, the `style` proxy (`StyleProxy`), the
  promise `invoke` returns (`PendingInvoke`), and `Turn`. `Turn` drives any
  sequence of writes on any Elements through the real methods, then runs the
  microtask queue.
- `RegisteredFunction`: the registry and hook as pure functions with lemmas,
  plus two classes: `CallableRegistry` (the module-level map and counter) and
  `HookInstance` (one component's `useRef`/`useMemo` slots). Their methods are
  proved equal to the pure functions.

Native reads and queries (`__GetAttributeByName`, `__GetAttributeNames`,
`__QuerySelector`, `__QuerySelectorAll`) are `Runtime` fields of function type.
Each takes the trace so far, so an answer may depend on every earlier write.
What the native layer does with the writes is not modelled. `JSON.stringify`
is a function parameter of `Settle`. `__MAIN_THREAD__` is a boolean parameter
of `Render`.

### Where the code and its comments disagree (the model follows the code)

- The hook never allocates a handle. Line 20 says "Generate ID only once per
  component instance". But the ref is initialised at line 18 to the current
  counter, a number, so the `??=` at line 21 never fires. The hook's id is the
  last handle issued before its first render, or 0 when none was issued.
  `HookTakesLastHandle` states the consequence: a main-thread render
  overwrites that handle's entry. In the package, two handles are registered
  at module load (`packages/motion-lynx/src/index.ts:10-11`), so a hook would
  take the second of them and replace an entry it did not create. With no
  handle issued yet, the hook's id is 0, a handle `registerCallable` never
  returns (`FirstHookIdIsZero`).
- The cleanup the hook builds is only the value `useMemo` returns, and the
  hook throws that value away. Nothing in the source calls it.
  `CallableRegistry.RunCleanup` models what calling it would do.
- Reading through the `style` proxy returns the snapshot taken when the getter
  ran (the proxy has no `get` trap). A key that is not in the snapshot reads
  as `undefined`, except the names the object inherits from `Object.prototype`
  (such as `constructor`), which are not modelled. Only `getStyleProperty` and
  the named getters give `''` for a missing key.
- `getComputedStyle` writes onto kebab-case keys. The defaults
  `backgroundColor` and `fontSize` are camelCase, so cached values never
  replace them. Setting `backgroundColor` adds a separate `background-color`
  entry.
- Kebab conversion is not injective: `fontSize` and `font-size` meet on
  `font-size`. Both can sit in the cache, and the later-inserted one decides
  the computed value (`OverlayGet`).

## Model

| member | source | states |
|---|---|---|
| `CssName.Kebab` | packages/react/worklet-runtime/src/api/element.ts:34 | the converted name has no ASCII capital; a name without capitals is returned unchanged |
| `CssName.LowerChar` | packages/react/worklet-runtime/src/api/element.ts:34 | lower-casing one character: a capital becomes the lower-case letter at the same place in the alphabet, anything else is kept |
| `CssName.HyphenateCapitals` | packages/react/worklet-runtime/src/api/element.ts:34 | the `/([A-Z])/g` → `-$1` step leaves a capital-free name unchanged; what it does to a capital is `HyphenateOne` |
| `CssName.ToLower` | packages/react/worklet-runtime/src/api/element.ts:34 | lower-casing keeps the length, maps every character by `LowerChar` (so removes every capital) and leaves capital-free text unchanged |
| `CssName.HyphenateOne` | packages/react/worklet-runtime/src/api/element.ts:34 | on one character, a capital becomes `-` followed by that capital; any other character is kept |
| `CssName.KebabOne` | packages/react/worklet-runtime/src/api/element.ts:34 | on one character, a capital becomes `-` followed by its lower-case letter; any other character is kept |
| `CssName.KebabAppend` | packages/react/worklet-runtime/src/api/element.ts:34 | converting a concatenation is concatenating the conversions, so with `KebabOne` the result is fixed for names with any number of capitals |
| `CssName.KebabIdempotent` | packages/react/worklet-runtime/src/api/element.ts:34 | converting twice equals converting once, so kebab names are never hyphenated twice |
| `CssName.KebabLength` | packages/react/worklet-runtime/src/api/element.ts:34 | the result is longer than the name by exactly its number of capitals (one hyphen each) |
| `CssName.HyphenateAppend` | packages/react/worklet-runtime/src/api/element.ts:34 | the replacement step distributes over concatenation |
| `CssName.ToLowerAppend` | packages/react/worklet-runtime/src/api/element.ts:34 | lower-casing distributes over concatenation |
| `CssName.KebabOneCapital` | packages/react/worklet-runtime/src/api/element.ts:34 | a single capital between capital-free parts becomes a hyphen and its lower-case letter |
| `CssName.KebabBackgroundColor` | packages/react/worklet-runtime/src/api/element.ts:34 | `backgroundColor` becomes `background-color` |
| `CssName.KebabWidth` | packages/react/worklet-runtime/src/api/element.ts:34 | `width` stays `width` |
| `CssName.KebabFontSize` | packages/react/worklet-runtime/src/api/element.ts:34 | `fontSize` and `font-size` both become `font-size` |
| `StyleMap.Get` | packages/react/worklet-runtime/src/api/element.ts:102 | a lookup finds a value exactly when the key is present, and the value is stored under that key |
| `StyleMap.Put` | packages/react/worklet-runtime/src/api/element.ts:36 | after `set(k, v)`, `k` reads `v` and every other key reads as before; an existing key keeps its place, a new one goes last; keys stay distinct |
| `StyleMap.GetDistinct` | packages/react/worklet-runtime/src/api/element.ts:11 | in a table without repeated keys, each entry is what its key looks up |
| `Native.Nullish` | packages/react/worklet-runtime/src/api/element.ts:224 | `params ?? {}` replaces both `undefined` and `null` and keeps every other value |
| `WorkletRuntime.ScheduleFlush` | packages/react/worklet-runtime/src/api/element.ts:237-241 | `flushElementTree()` on the scheduler state; its properties are `ScheduleFlushCoalesces` and `CoherentPreserved` |
| `WorkletRuntime.FlushCallback` | packages/react/worklet-runtime/src/api/element.ts:242-245 | the queued callback on the scheduler state; its properties are `CoherentPreserved` and `DrainCoherent` |
| `WorkletRuntime.Drain` | packages/react/worklet-runtime/src/api/element.ts:242-245 | running every queued callback: the queue ends empty, and the trace gains exactly one `Flush` per queued callback, the earlier trace kept as its prefix |
| `WorkletRuntime.Emit` | packages/react/worklet-runtime/src/api/element.ts:27-30 | a native write followed by `flushElementTree()`; `EmitAllShape` and `OneFlushPerTurn` state what writes in sequence give |
| `WorkletRuntime.EmitAll` | packages/react/worklet-runtime/src/api/element.ts:27-47 | the writes of one synchronous turn in call order; its properties are `EmitAllShape`, `EmitAllSnoc` and `OneFlushPerTurn` |
| `WorkletRuntime.ScheduleFlushCoalesces` | packages/react/worklet-runtime/src/api/element.ts:237-246 | a trigger while `willFlush` is set changes nothing; from idle it sets the flag and queues one callback, trace unchanged; triggering twice equals once |
| `WorkletRuntime.CoherentPreserved` | packages/react/worklet-runtime/src/api/element.ts:237-246 | "one callback queued exactly when `willFlush` is set" survives a trigger, a write and the callback |
| `WorkletRuntime.DrainCoherent` | packages/react/worklet-runtime/src/api/element.ts:242-245 | running the queue appends one `Flush` if a flush was armed, none otherwise, and returns to idle |
| `WorkletRuntime.EmitAllSnoc` | packages/react/worklet-runtime/src/api/element.ts:27-38 | a turn's writes compose one write at a time |
| `WorkletRuntime.EmitAllShape` | packages/react/worklet-runtime/src/api/element.ts:27-38 | writes in one turn enter the trace in call order; the scheduler ends armed exactly when it was armed or something was written, with one callback queued |
| `WorkletRuntime.CountFlushesAppend` | packages/react/worklet-runtime/src/api/element.ts:244 | flush counts add up over concatenated traces |
| `WorkletRuntime.NoFlushCountsZero` | packages/react/worklet-runtime/src/api/element.ts:28 | a sequence of writes holds no flush |
| `WorkletRuntime.OneFlushPerTurn` | packages/react/worklet-runtime/src/api/element.ts:237-246 | N writes in one turn, then the microtask queue, give the N writes in call order followed by exactly one `Flush` (none if nothing was written or armed), back to idle |
| `WorkletRuntime.Runtime.constructor` | packages/react/worklet-runtime/src/api/element.ts:10 | a context starts with an empty trace, `willFlush` unset and nothing queued, so the scheduler invariant holds |
| `WorkletRuntime.Runtime.Call` | packages/react/worklet-runtime/src/api/element.ts:28 | a native write appends its one event and changes no scheduler state |
| `WorkletRuntime.Runtime.FlushElementTree` | packages/react/worklet-runtime/src/api/element.ts:237-246 | the in-place scheduler equals `ScheduleFlush`: flag set, at most one callback added, trace unchanged |
| `WorkletRuntime.Runtime.RunFlushCallback` | packages/react/worklet-runtime/src/api/element.ts:242-245 | the queued callback clears `willFlush`, then appends one `Flush` |
| `WorkletRuntime.Runtime.RunMicrotasks` | packages/react/worklet-runtime/src/api/element.ts:242 | running the queue to empty equals `Drain` of the previous state |
| `ComputedStyles.DefaultsTable` | packages/react/worklet-runtime/src/api/element.ts:51-64 | the default table has twelve distinct keys, and exactly two of them (`backgroundColor`, `fontSize`) are camelCase |
| `ComputedStyles.Overlay` | packages/react/worklet-runtime/src/api/element.ts:66-70 | the `forEach` that assigns each cached value onto its kebab-case key; `OverlayGet` and `OverlayKeepsBaseOrder` state its result |
| `ComputedStyles.OverlayGet` | packages/react/worklet-runtime/src/api/element.ts:66-71 | each key of the result holds the last cached value whose key converts to it, or the default when none does |
| `ComputedStyles.OverlayKeepsBaseOrder` | packages/react/worklet-runtime/src/api/element.ts:50-71 | the defaults stay first in the result, in their order |
| `ComputedStyles.NoOverrideOfCamelKey` | packages/react/worklet-runtime/src/api/element.ts:69-70 | no cached entry is ever assigned onto a key that contains a capital |
| `ComputedStyles.CamelDefaultStays` | packages/react/worklet-runtime/src/api/element.ts:50-71 | a camelCase default keeps its default value whatever is cached |
| `ComputedStyles.BackgroundColorAndFontSizeStay` | packages/react/worklet-runtime/src/api/element.ts:58-70 | `backgroundColor: 'transparent'` and `fontSize: '14px'` are in every result |
| `ComputedStyles.EmptyCacheGivesDefaults` | packages/react/worklet-runtime/src/api/element.ts:50-64 | with an empty cache the result is the twelve defaults |
| `ElementProxy.PutPresent` | packages/react/worklet-runtime/src/api/element.ts:40-47 | the cache after `setStyleProperties`; `PutPresentGet` states what each key then reads |
| `ElementProxy.StyleEvents` | packages/react/worklet-runtime/src/api/element.ts:40-47 | the native writes of `setStyleProperties`; `StyleEventsShape` states what they are |
| `ElementProxy.PutPresentGet` | packages/react/worklet-runtime/src/api/element.ts:40-47 | after `setStyleProperties`, a key reads its last non-`undefined` value in the record; keys left out or `undefined` keep their old value |
| `ElementProxy.StyleEventsShape` | packages/react/worklet-runtime/src/api/element.ts:40-47 | `setStyleProperties` makes only `InlineStyle` calls on its own node, each with a present value under its key's kebab name, and no flush |
| `ElementProxy.Settle` | packages/react/worklet-runtime/src/api/element.ts:225-231 | status 0 fulfils with `data`; any other status rejects with `'UI method invoke: '` followed by the serialized response |
| `ElementProxy.PendingInvoke.constructor` | packages/react/worklet-runtime/src/api/element.ts:220 | the promise starts pending |
| `ElementProxy.PendingInvoke.Complete` | packages/react/worklet-runtime/src/api/element.ts:220-231 | the callback settles a pending promise by `Settle`; a settled promise stays as it is |
| `ElementProxy.PropertyName` | packages/react/worklet-runtime/src/api/element.ts:106-195 | the cache key of each named accessor; `PropertyNamesDistinct` states that no two accessors share one |
| `ElementProxy.PropertyNamesDistinct` | packages/react/worklet-runtime/src/api/element.ts:105-195 | distinct named accessors use distinct cache keys |
| `ElementProxy.Element.constructor` | packages/react/worklet-runtime/src/api/element.ts:11-25 | a new Element wraps its node with an empty style cache |
| `ElementProxy.Element.SetAttribute` | packages/react/worklet-runtime/src/api/element.ts:27-30 | one `SetAttr` event, then the flush armed; the cache is untouched |
| `ElementProxy.Element.SetStyleProperty` | packages/react/worklet-runtime/src/api/element.ts:32-38 | one `InlineStyle` event under the kebab name, the cache set under the original name, then the flush armed |
| `ElementProxy.Element.SetStyleProperties` | packages/react/worklet-runtime/src/api/element.ts:40-47 | each present entry in order goes through `setStyleProperty`; `undefined` entries are skipped |
| `ElementProxy.Element.SetStyle` | packages/react/worklet-runtime/src/api/element.ts:96-98 | assigning `style` has the same effect as `setStyleProperties` |
| `ElementProxy.Element.GetComputedStyle` | packages/react/worklet-runtime/src/api/element.ts:49-74 | the result is the defaults merged with the cache; no native call and no cache change |
| `ElementProxy.Element.GetStyleProperty` | packages/react/worklet-runtime/src/api/element.ts:101-103 | the cached value, or `''` when the key is unset |
| `ElementProxy.Element.GetNamed` | packages/react/worklet-runtime/src/api/element.ts:106-195 | a named getter reads its key's cached value, or `''` |
| `ElementProxy.Element.SetNamed` | packages/react/worklet-runtime/src/api/element.ts:109-194 | a named setter is `setStyleProperty` on its key, and its getter then reads the new value |
| `ElementProxy.Element.Style` | packages/react/worklet-runtime/src/api/element.ts:76-94 | the getter returns a new proxy over a snapshot of the cache |
| `ElementProxy.Element.GetAttribute` | packages/react/worklet-runtime/src/api/element.ts:197-199 | the native answer for this node and name; no event, no flush |
| `ElementProxy.Element.GetAttributeNames` | packages/react/worklet-runtime/src/api/element.ts:201-203 | the native answer for this node; no event, no flush |
| `ElementProxy.Element.QuerySelector` | packages/react/worklet-runtime/src/api/element.ts:205-208 | null exactly when the native layer finds no match, otherwise a fresh Element on the match with an empty cache |
| `ElementProxy.Element.QuerySelectorAll` | packages/react/worklet-runtime/src/api/element.ts:210-214 | one fresh, distinct Element per native match, in native order, each with an empty cache |
| `ElementProxy.Element.Invoke` | packages/react/worklet-runtime/src/api/element.ts:216-235 | one `InvokeUI` event with `params ?? {}`, then the flush armed; the returned promise is pending |
| `ElementProxy.StyleProxy.constructor` | packages/react/worklet-runtime/src/api/element.ts:77-80 | the proxy's target is a copy of the cache |
| `ElementProxy.StyleProxy.Read` | packages/react/worklet-runtime/src/api/element.ts:77-84 | `setProperty` reads as the function; another string key reads its snapshot value or `undefined`; a symbol reads `undefined` |
| `ElementProxy.StyleProxy.Set` | packages/react/worklet-runtime/src/api/element.ts:85-92 | a string key other than `setProperty` goes through `setStyleProperty` and into the target; any other key changes nothing; the trap returns true |
| `ElementProxy.StyleProxy.SetProperty` | packages/react/worklet-runtime/src/api/element.ts:81-83 | `style.setProperty(p, v)` is `setStyleProperty(p, v)` |
| `ElementProxy.WriteEvent` | packages/react/worklet-runtime/src/api/element.ts:27-38 | the native event of one write; `Perform` proves that the real write method makes exactly this event |
| `ElementProxy.WriteEvents` | packages/react/worklet-runtime/src/api/element.ts:27-38 | a turn's writes give one native event each, in order, and none is a flush |
| `ElementProxy.Perform` | packages/react/worklet-runtime/src/api/element.ts:216-235 | one mutating call is its native event followed by the flush trigger |
| `ElementProxy.Turn` | packages/react/worklet-runtime/src/api/element.ts:237-246 | writes on any Elements of one context, then the microtask queue: the trace gains the writes in call order and then exactly one `Flush` (none if nothing was written or armed), and the scheduler is idle and keeps its invariant |
| `RegisteredFunction.Register` | packages/motion-lynx/src/registeredFunction.ts:10-14 | `registerCallable` on the registry value; `RegisterIssuesNext` and `RegisterAllHandles` state its handles |
| `RegisteredFunction.Lookup` | packages/motion-lynx/src/registeredFunction.ts:38-43 | `runOnRegistered` on the registry value; the lemmas above state what each handle resolves to |
| `RegisteredFunction.ApplyCleanup` | packages/motion-lynx/src/registeredFunction.ts:27-32 | what the memoised cleanup does to the registry; `CleanupEffect` states it |
| `RegisteredFunction.NullishAssign` | packages/motion-lynx/src/registeredFunction.ts:21 | the `??=`; `NullishAssignOnNumber` states both of its cases |
| `RegisteredFunction.UseRegistered` | packages/motion-lynx/src/registeredFunction.ts:17-36 | one render of the hook; `HookId`, `HookEffects`, `HookInvPreserved`, `HookTakesLastHandle`, `FirstHookIdIsZero` and `RendersResolveNewest` state what it does |
| `RegisteredFunction.RegisterIssuesNext` | packages/motion-lynx/src/registeredFunction.ts:10-14 | the handle is the old counter plus one, was free, now resolves to `f`; other handles resolve as before; every key stays at or below the counter |
| `RegisteredFunction.RegisterAllHandles` | packages/motion-lynx/src/registeredFunction.ts:8-14 | successive handles are consecutive (strictly increasing, never reused); each resolves to its callable; older entries are untouched |
| `RegisteredFunction.CleanupEffect` | packages/motion-lynx/src/registeredFunction.ts:27-32 | the main-thread cleanup deletes exactly the hook's entry and keeps the counter; calling it twice equals once; the off-thread cleanup is the identity |
| `RegisteredFunction.NullishAssignOnNumber` | packages/motion-lynx/src/registeredFunction.ts:21 | `??=` on a number keeps it and does not advance the counter; only a nullish ref would allocate |
| `RegisteredFunction.HookId` | packages/motion-lynx/src/registeredFunction.ts:18-21 | a render never moves the counter; the id is the counter at the first render and the stored ref afterwards |
| `RegisteredFunction.HookEffects` | packages/motion-lynx/src/registeredFunction.ts:23-33 | a new `func` on the main thread sets `map[id] := func` with the deleting cleanup; an unchanged `func` writes nothing; off the main thread the registry is untouched and a new memo is the no-op |
| `RegisteredFunction.HookInvPreserved` | packages/motion-lynx/src/registeredFunction.ts:8-33 | renders, registrations and cleanups keep every key and the hook's id at or below the counter |
| `RegisteredFunction.HookTakesLastHandle` | packages/motion-lynx/src/registeredFunction.ts:18-25 | the first main-thread render after `registerCallable(g)` returns g's handle and overwrites g's entry |
| `RegisteredFunction.FirstHookIdIsZero` | packages/motion-lynx/src/registeredFunction.ts:8-18 | with no handle issued yet, the hook's id is 0 |
| `RegisteredFunction.RendersResolveNewest` | packages/motion-lynx/src/registeredFunction.ts:17-36 | across main-thread renders the id stays fixed and looking it up yields the newest `func` |
| `RegisteredFunction.CallableRegistry.constructor` | packages/motion-lynx/src/registeredFunction.ts:7-8 | the registry starts empty with counter 0 |
| `RegisteredFunction.CallableRegistry.RegisterCallable` | packages/motion-lynx/src/registeredFunction.ts:10-14 | the counter rises by one, `f` is stored under the new value, and that value is returned |
| `RegisteredFunction.CallableRegistry.RunOnRegistered` | packages/motion-lynx/src/registeredFunction.ts:38-43 | the stored callable when `id` has an entry, absent otherwise; nothing changes |
| `RegisteredFunction.CallableRegistry.RunCleanup` | packages/motion-lynx/src/registeredFunction.ts:27-29 | calling a memoised cleanup has the effect `ApplyCleanup` states |
| `RegisteredFunction.HookInstance.constructor` | packages/motion-lynx/src/registeredFunction.ts:17-18 | an instance starts with no ref, no memo and no dependency |
| `RegisteredFunction.HookInstance.Render` | packages/motion-lynx/src/registeredFunction.ts:17-36 | one in-place render equals `UseRegistered` on the previous registry and hook state |

## Left out

- `packages/motion-lynx/src/index.ts`: its facades forward to the external `motion` library, which is not part of this model. Their module-load handles are ordinary `RegisterCallable` calls. Line 19 calls the lookup result directly, so a missing handle throws there; it does not degrade silently.
- `packages/motion-lynx/src/shim.ts`: global polyfills (`document`, `performance`, `queueMicrotask`, empty classes). They are host plumbing with no logic.
- The example screens under `examples/react/src/`: consumers of the core.
- The global install of `runOnRegistered` (`registeredFunction.ts:46`): a host binding.
- Native semantics: `__SetAttribute`, `__AddInlineStyle`, `__InvokeUIMethod` and `__FlushElementTree` are trace events. Native reads and queries are functions of the trace, and what the native layer applies is not modelled.
- The `Object.defineProperty` hiding of the node reference (`element.ts:20-24`): the node is a `const` field and nothing else reads it.
- Threads and transfer between contexts: `__MAIN_THREAD__` is a boolean parameter, and `'main thread'` directives are not modelled.
- Promises other than the flush callback are not modelled. The microtask queue holds only flush callbacks. What callers chain on `invoke`'s promise is out of scope.
- React's hook runtime: `useRef`/`useMemo` are the fields of `HookInstance`. Unmounting is not modelled, because the source never runs the cleanup.
- JavaScript numbers are doubles. Handles are unbounded naturals, response codes are integers, and a number passed through as an attribute value or `invoke` parameter is a real. Rounding, precision loss past 2^53, `NaN` and infinities are not modelled.
- `CssName.ToLower`: lower-cases ASCII capitals only, while JavaScript's `toLowerCase` also lowers other Unicode capitals. The regular expression only matches `A-Z`, so the hyphen rule is exact.
- `ElementProxy.StyleProxy.Set`: takes the assigned value as a string. `String(value)` for non-string values is not modelled, and for strings the snapshot and the cache receive the same value.
- `ComputedStyles.OverlayKeepsBaseOrder`: states that the defaults come first, in their order. For the object `getComputedStyle` returns, that holds only when no cached key converts to an integer-like key: JavaScript lists integer-like keys (such as `"0"`, reached by `el.style[0] = 'x'`) before all other keys. The values under every key (`OverlayGet`) do not depend on this order.
- `ComputedStyles.Overlay`: a cached key named `__proto__` is stored like any other key. In JavaScript, assigning a string to `__proto__` on a plain object is ignored. The same holds for the snapshot the `style` getter builds and for the `set` trap's write into it.
- `ElementProxy.StyleProxy.Read`: a name inherited from `Object.prototype`, such as `constructor`, reads as `Missing`, while JavaScript gives the inherited function.
- `ElementProxy.Element.SetStyleProperties`: takes the record in `for...in` enumeration order. JavaScript's rule that integer-like keys enumerate first, and its enumeration of inherited properties, are not modelled.
- `ElementProxy.Settle`: `JSON.stringify` is a function parameter, so the message is specified only as the prefix followed by that function's output.
- `ElementProxy.Turn`: states the runtime's new trace and scheduler state only, not each Element's cache after the turn. Those follow write by write from `SetStyleProperty`, and `Turn` modifies only the Elements it writes to.
- The proxy's other traps and the general Proxy/record machinery: only the `set` trap and plain reads of the target are modelled.
