/** The callable registry of the main thread: a module-level map from numeric
    handles to callables with a counter, `registerCallable` to add an entry,
    `runOnRegistered` to look one up, and the `useRegistered` hook with its
    per-instance ref and memo. Callables are of an abstract type `F`; hook
    identity comparison (`useMemo`'s dependency check) is equality on `F`. */
module RegisteredFunction {
  import opened Wrappers

  /** `globalIdCounter` and `registeredCallableMap`. */
  datatype Registry<F> = Registry(counter: nat, entries: map<nat, F>)

  /** The registry invariant: no entry sits above the last issued handle. */
  ghost predicate Bounded<F>(r: Registry<F>) {
    forall k :: k in r.entries ==> k <= r.counter
  }

  /** `registerCallable(f)`: the handle is `++globalIdCounter`. */
  function Register<F>(r: Registry<F>, f: F): (Registry<F>, nat) {
    var h := r.counter + 1;
    (Registry(h, r.entries[h := f]), h)
  }

  /** `runOnRegistered(id)`: the stored callable, or `undefined`. */
  function Lookup<F>(r: Registry<F>, id: nat): Option<F> {
    if id in r.entries then Some(r.entries[id]) else None
  }

  /** A new handle is one above the old counter, was free, and now resolves to
      `f`; every other handle resolves as before. */
  lemma RegisterIssuesNext<F>(r: Registry<F>, f: F)
    requires Bounded(r)
    ensures var (r', h) := Register(r, f);
            h == r.counter + 1 && r'.counter == h && h !in r.entries &&
            Lookup(r', h) == Some(f) &&
            (forall k :: k != h ==> Lookup(r', k) == Lookup(r, k)) &&
            Bounded(r')
  {
  }

  /** Several `registerCallable` calls in a row. */
  function RegisterAll<F>(r: Registry<F>, fs: seq<F>): (Registry<F>, seq<nat>) {
    if fs == [] then (r, [])
    else
      var (r', hs) := RegisterAll(r, fs[..|fs| - 1]);
      var (r'', h) := Register(r', fs[|fs| - 1]);
      (r'', hs + [h])
  }

  /** Successive handles are consecutive, so strictly increasing and never
      reused; each resolves to its own callable afterwards, and entries that
      existed before are untouched. */
  lemma {:induction false} RegisterAllHandles<F>(r: Registry<F>, fs: seq<F>)
    requires Bounded(r)
    ensures var (r', hs) := RegisterAll(r, fs);
            |hs| == |fs| && r'.counter == r.counter + |fs| && Bounded(r') &&
            (forall i :: 0 <= i < |hs| ==> hs[i] == r.counter + 1 + i) &&
            (forall i :: 0 <= i < |hs| ==> Lookup(r', hs[i]) == Some(fs[i])) &&
            (forall k: nat :: k <= r.counter ==> Lookup(r', k) == Lookup(r, k))
  {
    if fs != [] {
      RegisterAllHandles(r, fs[..|fs| - 1]);
      var (r1, hs1) := RegisterAll(r, fs[..|fs| - 1]);
      RegisterIssuesNext(r1, fs[|fs| - 1]);
    }
  }

  /** The cleanup function a `useRegistered` memo builds: on the main thread it
      deletes the hook's entry, elsewhere it does nothing. */
  datatype Cleanup = DeleteEntry(id: nat) | NoCleanup

  function ApplyCleanup<F>(r: Registry<F>, c: Cleanup): Registry<F> {
    match c
    case DeleteEntry(id) => r.(entries := r.entries - {id})
    case NoCleanup => r
  }

  /** The deleting cleanup removes exactly its entry and keeps the counter;
      a second call changes nothing; the no-op cleanup is the identity. */
  lemma CleanupEffect<F>(r: Registry<F>, c: Cleanup)
    ensures ApplyCleanup(ApplyCleanup(r, c), c) == ApplyCleanup(r, c)
    ensures ApplyCleanup(r, c).counter == r.counter
    ensures c.DeleteEntry? ==>
              Lookup(ApplyCleanup(r, c), c.id) == None &&
              forall k :: k != c.id ==> Lookup(ApplyCleanup(r, c), k) == Lookup(r, k)
    ensures c.NoCleanup? ==> ApplyCleanup(r, c) == r
    ensures Bounded(r) ==> Bounded(ApplyCleanup(r, c))
  {
  }

  /** The per-instance hook state: the `useRef` slot (none before the first
      render), the `useMemo` dependency `func` and the memoised cleanup. */
  datatype Hook<F> = Hook(idRef: Option<nat>, deps: Option<F>, memo: Option<Cleanup>)

  /** `current ??= ++counter`: only a nullish `current` draws a fresh number. */
  function NullishAssign(current: Option<nat>, counter: nat): (nat, nat) {
    match current
    case Some(n) => (n, counter)
    case None => (counter + 1, counter + 1)
  }

  /** One render of `useRegistered(f)` (lines 17-36): the new registry, the new
      hook state and the returned id. The ref starts at the current counter,
      a number, so the `??=` never draws a fresh one. */
  function UseRegistered<F(==)>(r: Registry<F>, h: Hook<F>, f: F, isMainThread: bool)
    : (Registry<F>, Hook<F>, nat)
  {
    var initial := if h.idRef.Some? then h.idRef.value else r.counter;
    var (id, counter) := NullishAssign(Some(initial), r.counter);
    var r1 := r.(counter := counter);
    if h.deps == Some(f) then (r1, h.(idRef := Some(id)), id)
    else if isMainThread then
      (r1.(entries := r1.entries[id := f]), Hook(Some(id), Some(f), Some(DeleteEntry(id))), id)
    else (r1, Hook(Some(id), Some(f), Some(NoCleanup)), id)
  }

  /** The `??=` of line 21 on a number keeps it and leaves the counter alone;
      only on null or undefined would it allocate. */
  lemma NullishAssignOnNumber(n: nat, counter: nat)
    ensures NullishAssign(Some(n), counter) == (n, counter)
    ensures NullishAssign(None, counter) == (counter + 1, counter + 1)
  {
  }

  /** The id is fixed at the first render (the counter at that moment) and
      returned unchanged afterwards; the hook never advances the counter. */
  lemma HookId<F>(r: Registry<F>, h: Hook<F>, f: F, isMainThread: bool)
    ensures var (r', h', id) := UseRegistered(r, h, f, isMainThread);
            r'.counter == r.counter &&
            id == (if h.idRef.Some? then h.idRef.value else r.counter) &&
            h'.idRef == Some(id)
  {
  }

  /** When `f` is not the previous `func` on the main thread, the map gets
      `map[id] := f` and the memo becomes the deleting cleanup; when `f` is the
      previous `func`, neither the registry nor the memo changes; off the main
      thread the registry is never touched and a new memo is the no-op. */
  lemma HookEffects<F>(r: Registry<F>, h: Hook<F>, f: F, isMainThread: bool)
    ensures var (r', h', id) := UseRegistered(r, h, f, isMainThread);
            h'.deps == Some(f) &&
            (h.deps == Some(f) ==> r' == r && h'.memo == h.memo) &&
            (h.deps != Some(f) && isMainThread ==>
               r'.entries == r.entries[id := f] && h'.memo == Some(DeleteEntry(id))) &&
            (!isMainThread ==> r' == r) &&
            (h.deps != Some(f) && !isMainThread ==> h'.memo == Some(NoCleanup))
  {
  }

  /** What ties a hook instance to the registry it renders against. */
  ghost predicate HookInv<F>(r: Registry<F>, h: Hook<F>) {
    && Bounded(r)
    && (h.idRef.None? ==> h.deps.None? && h.memo.None?)
    && (h.idRef.Some? ==> h.idRef.value <= r.counter)
    && (h.memo.Some? && h.memo.value.DeleteEntry? ==> h.idRef == Some(h.memo.value.id))
  }

  /** Rendering, registering elsewhere, and running the memoised cleanup all
      keep the registry bounded and the hook's id at or below the counter. */
  lemma HookInvPreserved<F>(r: Registry<F>, h: Hook<F>, f: F, g: F, isMainThread: bool, c: Cleanup)
    requires HookInv(r, h)
    ensures var (r', h', _) := UseRegistered(r, h, f, isMainThread); HookInv(r', h')
    ensures HookInv(Register(r, g).0, h)
    ensures HookInv(ApplyCleanup(r, c), h)
  {
  }

  /** The literal behaviour of the hook: since the ref starts at the counter,
      the first main-thread render after `registerCallable(g)` takes g's handle
      and overwrites g's entry with its own callable. */
  lemma HookTakesLastHandle<F>(r: Registry<F>, g: F, f: F)
    ensures var (r1, handle) := Register(r, g);
            var (r2, _, id) := UseRegistered(r1, Hook(None, None, None), f, true);
            id == handle && Lookup(r2, handle) == Some(f) && r2.counter == handle
  {
  }

  /** With no handle issued yet, the first hook's id is 0. */
  lemma FirstHookIdIsZero<F>(f: F, isMainThread: bool)
    ensures UseRegistered(Registry(0, map[]), Hook(None, None, None), f, isMainThread).2 == 0
  {
  }

  /** The registry holds the hook's current `func` under its id. */
  ghost predicate Synced<F>(r: Registry<F>, h: Hook<F>) {
    h.idRef.Some? && h.deps.Some? && Lookup(r, h.idRef.value) == h.deps
  }

  /** Successive renders of one hook instance with the callables `fs`. */
  function Renders<F(==)>(r: Registry<F>, h: Hook<F>, fs: seq<F>, isMainThread: bool)
    : (Registry<F>, Hook<F>)
  {
    if fs == [] then (r, h)
    else
      var (r', h') := Renders(r, h, fs[..|fs| - 1], isMainThread);
      var (r'', h'', _) := UseRegistered(r', h', fs[|fs| - 1], isMainThread);
      (r'', h'')
  }

  /** Across renders on the main thread the id stays the same and the map
      holds the newest callable under it, so lookups of the id run the latest
      `func`; the counter never moves. */
  lemma {:induction false} RendersResolveNewest<F>(r: Registry<F>, h: Hook<F>, fs: seq<F>)
    requires fs != []
    requires h.deps.None? || Synced(r, h)
    ensures var (r', h') := Renders(r, h, fs, true);
            Synced(r', h') && h'.deps == Some(fs[|fs| - 1]) &&
            Lookup(r', h'.idRef.value) == Some(fs[|fs| - 1]) &&
            r'.counter == r.counter &&
            h'.idRef == Some(if h.idRef.Some? then h.idRef.value else r.counter)
  {
    var front := fs[..|fs| - 1];
    if front == [] {
      assert Renders(r, h, front, true) == (r, h);
    } else {
      RendersResolveNewest(r, h, front);
    }
  }

  /** The module-level registry state, updated in place. */
  class CallableRegistry<F> {
    var counter: nat
    var entries: map<nat, F>

    function State(): Registry<F>
      reads this
    {
      Registry(counter, entries)
    }

    /** `new Map()` and `globalIdCounter = 0` at module load (lines 7-8). */
    constructor ()
      ensures State() == Registry(0, map[]) && Bounded(State())
    {
      counter := 0;
      entries := map[];
    }

    /** `registerCallable(func)` (lines 10-14). */
    method RegisterCallable(f: F) returns (handle: nat)
      modifies this
      ensures (State(), handle) == Register(old(State()), f)
      ensures handle == counter == old(counter) + 1 && entries == old(entries)[handle := f]
    {
      counter := counter + 1;
      entries := entries[counter := f];
      handle := counter;
    }

    /** `runOnRegistered(id)` (lines 38-43): a pure lookup. */
    function RunOnRegistered(id: nat): (r: Option<F>)
      reads this
      ensures r.Some? <==> id in entries
      ensures r.Some? ==> r.value == entries[id]
    {
      Lookup(State(), id)
    }

    /** Calling a memoised cleanup (lines 27-29 or 32). */
    method RunCleanup(c: Cleanup)
      modifies this
      ensures State() == ApplyCleanup(old(State()), c)
    {
      if c.DeleteEntry? {
        entries := entries - {c.id};
      }
    }
  }

  /** One component instance using `useRegistered`: its ref and its memo. */
  class HookInstance<F(==)> {
    var idRef: Option<nat>
    var deps: Option<F>
    var memo: Option<Cleanup>

    function State(): Hook<F>
      reads this
    {
      Hook(idRef, deps, memo)
    }

    /** A mounted instance that has not rendered yet. */
    constructor ()
      ensures State() == Hook(None, None, None)
    {
      idRef, deps, memo := None, None, None;
    }

    /** One render, `useRegistered(func)` (lines 17-36). */
    method Render(registry: CallableRegistry<F>, f: F, isMainThread: bool) returns (id: nat)
      modifies this, registry
      ensures (registry.State(), State(), id) ==
              UseRegistered(old(registry.State()), old(State()), f, isMainThread)
    {
      if idRef.None? {
        idRef := Some(registry.counter);
      }
      var nullish := NullishAssign(idRef, registry.counter);
      idRef := Some(nullish.0);
      registry.counter := nullish.1;
      if deps != Some(f) {
        if isMainThread {
          registry.entries := registry.entries[nullish.0 := f];
          memo := Some(DeleteEntry(nullish.0));
        } else {
          memo := Some(NoCleanup);
        }
        deps := Some(f);
      }
      id := nullish.0;
    }
  }
}
