/** The Element view of one native node: writes go straight to the native
    layer (recorded in the shared Runtime's trace), a style cache answers
    synchronous style reads, and every write arms the shared, coalescing flush. */
module ElementProxy {
  import opened Wrappers
  import opened Native
  import opened CssName
  import opened StyleMap
  import opened ComputedStyles
  import opened WorkletRuntime

  /** A record handed to `setStyleProperties`, in `for...in` order; `None`
      stands for a key whose value is `undefined`. */
  type StyleRecord = seq<(string, Option<string>)>

  /** The cache after `setStyleProperties(record)`: each present value set in order. */
  function PutPresent(m: Entries, record: StyleRecord): Entries {
    if record == [] then m
    else
      var last := record[|record| - 1];
      var before := PutPresent(m, record[..|record| - 1]);
      if last.1.Some? then Put(before, last.0, last.1.value) else before
  }

  /** The native style writes `setStyleProperties(record)` makes, in order. */
  function StyleEvents(node: NodeRef, record: StyleRecord): seq<Event> {
    if record == [] then []
    else
      var last := record[|record| - 1];
      StyleEvents(node, record[..|record| - 1])
        + (if last.1.Some? then [InlineStyle(node, Kebab(last.0), last.1.value)] else [])
  }

  /** The value of the last present entry for `key` in a record. */
  function LastPresent(record: StyleRecord, key: string): Option<string> {
    if record == [] then None
    else
      var last := record[|record| - 1];
      if last.0 == key && last.1.Some? then last.1 else LastPresent(record[..|record| - 1], key)
  }

  /** After `setStyleProperties`, a key reads its last present value in the
      record, and keys the record leaves out or maps to `undefined` keep what
      they had. */
  lemma {:induction false} PutPresentGet(m: Entries, record: StyleRecord, key: string)
    ensures Get(PutPresent(m, record), key) ==
            if LastPresent(record, key).Some? then LastPresent(record, key) else Get(m, key)
  {
    if record != [] {
      PutPresentGet(m, record[..|record| - 1], key);
    }
  }

  /** One native style write per present entry, each on the kebab-case name. */
  lemma {:induction false} StyleEventsShape(node: NodeRef, record: StyleRecord)
    ensures NoFlush(StyleEvents(node, record))
    ensures forall e :: e in StyleEvents(node, record) ==>
              e.InlineStyle? && e.node == node &&
              exists i :: 0 <= i < |record| && record[i].1 == Some(e.css) && Kebab(record[i].0) == e.property
  {
    if record != [] {
      StyleEventsShape(node, record[..|record| - 1]);
    }
  }

  /** The string every rejected `invoke` carries before the serialized response. */
  const InvokeErrorPrefix: string := "UI method invoke: "

  datatype Settlement = Pending | Fulfilled(data: Value) | Rejected(message: string)

  /** The callback given to `__InvokeUIMethod`: status 0 fulfils with the
      response's data; every other status rejects with the prefix followed by
      `JSON.stringify(res)`, given here as `stringify`. */
  function Settle(res: Response, stringify: Response -> string): (s: Settlement)
    ensures !s.Pending?
    ensures s.Fulfilled? <==> res.code == 0
    ensures s.Fulfilled? ==> s.data == res.data
    ensures s.Rejected? ==> s.message == InvokeErrorPrefix + stringify(res)
  {
    if res.code == 0 then Fulfilled(res.data) else Rejected(InvokeErrorPrefix + stringify(res))
  }

  /** The promise `invoke` returns; it settles once. */
  class PendingInvoke {
    var state: Settlement

    constructor ()
      ensures state == Pending
    {
      state := Pending;
    }

    /** The native layer calling back with its response. */
    method Complete(res: Response, stringify: Response -> string)
      modifies this
      ensures state == if old(state).Pending? then Settle(res, stringify) else old(state)
    {
      if state.Pending? {
        state := Settle(res, stringify);
      }
    }
  }

  /** The style properties with a named accessor pair on Element. */
  datatype NamedProperty =
    | BackgroundColor | Color | FontSize | Width | Height | Margin | Padding
    | Display | Position | Top | Left | Right | Bottom

  function PropertyName(p: NamedProperty): string {
    match p
    case BackgroundColor => "backgroundColor"
    case Color => "color"
    case FontSize => "fontSize"
    case Width => "width"
    case Height => "height"
    case Margin => "margin"
    case Padding => "padding"
    case Display => "display"
    case Position => "position"
    case Top => "top"
    case Left => "left"
    case Right => "right"
    case Bottom => "bottom"
  }

  /** Distinct accessors name distinct cache keys, so one never reads another's write. */
  lemma PropertyNamesDistinct(p: NamedProperty, q: NamedProperty)
    requires p != q
    ensures PropertyName(p) != PropertyName(q)
  {
  }

  class Element {
    const runtime: Runtime
    const node: NodeRef
    var styles: Entries

    /** `new Element(ref)`: a fresh view with an empty style cache. */
    constructor (runtime: Runtime, node: NodeRef)
      ensures this.runtime == runtime && this.node == node && styles == []
    {
      this.runtime := runtime;
      this.node := node;
      styles := [];
    }

    /** `setAttribute(name, value)` (lines 27-30). */
    method SetAttribute(name: string, value: Value)
      requires runtime.Valid()
      modifies runtime
      ensures runtime.Valid()
      ensures runtime.State() == Emit(old(runtime.State()), SetAttr(node, name, value))
    {
      runtime.Call(SetAttr(node, name, value));
      runtime.FlushElementTree();
    }

    /** `setStyleProperty(name, value)` (lines 32-38): one native style write
        under the kebab-case name, the cache updated under the original name,
        then the flush armed. */
    method SetStyleProperty(name: string, value: string)
      requires runtime.Valid()
      modifies this, runtime
      ensures runtime.Valid()
      ensures styles == Put(old(styles), name, value)
      ensures runtime.State() == Emit(old(runtime.State()), InlineStyle(node, Kebab(name), value))
    {
      var cssProperty := Kebab(name);
      runtime.Call(InlineStyle(node, cssProperty, value));
      styles := Put(styles, name, value);
      runtime.FlushElementTree();
    }

    /** `setStyleProperties(record)` (lines 40-47). */
    method SetStyleProperties(record: StyleRecord)
      requires runtime.Valid()
      modifies this, runtime
      ensures runtime.Valid()
      ensures styles == PutPresent(old(styles), record)
      ensures runtime.State() == EmitAll(old(runtime.State()), StyleEvents(node, record))
    {
      var i := 0;
      while i < |record|
        invariant 0 <= i <= |record|
        invariant runtime.Valid()
        invariant styles == PutPresent(old(styles), record[..i])
        invariant runtime.State() == EmitAll(old(runtime.State()), StyleEvents(node, record[..i]))
      {
        var key, value := record[i].0, record[i].1;
        assert record[..i + 1][..i] == record[..i];
        ghost var before := StyleEvents(node, record[..i]);
        if value.Some? {
          SetStyleProperty(key, value.value);
          assert StyleEvents(node, record[..i + 1]) == before + [InlineStyle(node, Kebab(key), value.value)];
          EmitAllSnoc(old(runtime.State()), before, InlineStyle(node, Kebab(key), value.value));
        } else {
          assert StyleEvents(node, record[..i + 1]) == before + [];
          assert before + [] == before;
        }
        i := i + 1;
      }
      assert record[..|record|] == record;
    }

    /** The `style` setter (lines 96-98): the same as `setStyleProperties`. */
    method SetStyle(record: StyleRecord)
      requires runtime.Valid()
      modifies this, runtime
      ensures runtime.Valid()
      ensures styles == PutPresent(old(styles), record)
      ensures runtime.State() == EmitAll(old(runtime.State()), StyleEvents(node, record))
    {
      SetStyleProperties(record);
    }

    /** `getComputedStyle()` (lines 49-74): no native call, no change to the cache. */
    method GetComputedStyle() returns (styleObject: Entries)
      ensures styleObject == ComputedStyle(styles)
    {
      styleObject := Defaults;
      var i := 0;
      while i < |styles|
        invariant 0 <= i <= |styles|
        invariant styleObject == Overlay(Defaults, styles[..i])
      {
        var key, value := styles[i].0, styles[i].1;
        assert styles[..i + 1][..i] == styles[..i];
        styleObject := Put(styleObject, Kebab(key), value);
        i := i + 1;
      }
      assert styles[..|styles|] == styles;
    }

    /** `getStyleProperty(name)` (lines 101-103): the cached value, or `''`. */
    function GetStyleProperty(name: string): (v: string)
      reads this
      ensures HasKey(styles, name) ==> Some(v) == Get(styles, name)
      ensures !HasKey(styles, name) ==> v == ""
    {
      Get(styles, name).GetOr("")
    }

    /** A named getter such as `get color()` (lines 106-195). */
    function GetNamed(p: NamedProperty): (v: string)
      reads this
      ensures HasKey(styles, PropertyName(p)) ==> Some(v) == Get(styles, PropertyName(p))
      ensures !HasKey(styles, PropertyName(p)) ==> v == ""
    {
      GetStyleProperty(PropertyName(p))
    }

    /** A named setter such as `set color(value)` (lines 106-195). */
    method SetNamed(p: NamedProperty, value: string)
      requires runtime.Valid()
      modifies this, runtime
      ensures runtime.Valid()
      ensures styles == Put(old(styles), PropertyName(p), value)
      ensures runtime.State() == Emit(old(runtime.State()), InlineStyle(node, Kebab(PropertyName(p)), value))
      ensures GetNamed(p) == value
    {
      SetStyleProperty(PropertyName(p), value);
    }

    /** The `style` getter (lines 76-94): a proxy over a snapshot of the cache. */
    method Style() returns (proxy: StyleProxy)
      ensures fresh(proxy) && proxy.owner == this && proxy.target == styles
    {
      proxy := new StyleProxy(this);
    }

    /** `getAttribute(name)` (lines 197-199): a native read, no event, no flush. */
    method GetAttribute(name: string) returns (v: Value)
      ensures v == runtime.attributeOf(runtime.trace, node, name)
    {
      v := runtime.attributeOf(runtime.trace, node, name);
    }

    /** `getAttributeNames()` (lines 201-203): a native read, no event, no flush. */
    method GetAttributeNames() returns (names: seq<string>)
      ensures names == runtime.attributeNamesOf(runtime.trace, node)
    {
      names := runtime.attributeNamesOf(runtime.trace, node);
    }

    /** `querySelector(selector)` (lines 205-208): null when nothing matches,
        otherwise a fresh Element with an empty cache. */
    method QuerySelector(selector: string) returns (found: Element?)
      ensures var ref := runtime.queryOne(runtime.trace, node, selector);
              (found == null <==> ref.None?) &&
              (found != null ==> fresh(found) && found.runtime == runtime &&
                                 found.node == ref.value && found.styles == [])
    {
      var ref := runtime.queryOne(runtime.trace, node, selector);
      if ref.Some? {
        found := new Element(runtime, ref.value);
      } else {
        found := null;
      }
    }

    /** `querySelectorAll(selector)` (lines 210-214): one fresh Element per
        native match, in the native order, all distinct. */
    method QuerySelectorAll(selector: string) returns (found: seq<Element>)
      ensures var refs := runtime.queryAll(runtime.trace, node, selector);
              |found| == |refs| &&
              (forall i :: 0 <= i < |found| ==>
                 fresh(found[i]) && found[i].runtime == runtime &&
                 found[i].node == refs[i] && found[i].styles == []) &&
              (forall i, j :: 0 <= i < j < |found| ==> found[i] != found[j])
    {
      var refs := runtime.queryAll(runtime.trace, node, selector);
      found := [];
      var i := 0;
      while i < |refs|
        invariant 0 <= i <= |refs| && |found| == i
        invariant forall k :: 0 <= k < i ==>
                    fresh(found[k]) && found[k].runtime == runtime &&
                    found[k].node == refs[k] && found[k].styles == []
        invariant forall k, l :: 0 <= k < l < i ==> found[k] != found[l]
      {
        var element := new Element(runtime, refs[i]);
        found := found + [element];
        i := i + 1;
      }
    }

    /** `invoke(methodName, params)` (lines 216-235): the native call with
        `params ?? {}`, then the flush armed; the result is a pending promise. */
    method Invoke(methodName: string, params: Value) returns (call: PendingInvoke)
      requires runtime.Valid()
      modifies runtime
      ensures runtime.Valid()
      ensures fresh(call) && call.state == Pending
      ensures runtime.State() ==
              Emit(old(runtime.State()), InvokeUI(node, methodName, Nullish(params, Object([]))))
    {
      call := new PendingInvoke();
      runtime.Call(InvokeUI(node, methodName, Nullish(params, Object([]))));
      runtime.FlushElementTree();
    }
  }

  /** A property key assigned on the style proxy. */
  datatype PropertyKey = Name(name: string) | Symbol(id: nat)

  /** What reading a property of the style proxy gives. */
  datatype StyleRead = Text(text: string) | SetPropertyFunction | Missing

  /** The object returned by the `style` getter: a snapshot of the cache with
      a `setProperty` function, behind a proxy whose `set` trap writes through. */
  class StyleProxy {
    const owner: Element
    var target: Entries

    constructor (owner: Element)
      ensures this.owner == owner && target == owner.styles
    {
      this.owner := owner;
      target := owner.styles;
    }

    /** Reading `style[key]`: `setProperty` is the function, a snapshot key its
        value, anything else `undefined`. */
    function Read(key: PropertyKey): (r: StyleRead)
      reads this
      ensures key == Name("setProperty") ==> r == SetPropertyFunction
      ensures key.Symbol? ==> r == Missing
      ensures key.Name? && key.name != "setProperty" ==>
                (r.Text? <==> HasKey(target, key.name)) &&
                (r.Text? ==> Get(target, key.name) == Some(r.text)) &&
                (!r.Text? ==> r == Missing)
    {
      match key
      case Symbol(_) => Missing
      case Name(n) =>
        if n == "setProperty" then SetPropertyFunction
        else match Get(target, n)
          case Some(v) => Text(v)
          case None => Missing
    }

    /** The `set` trap (lines 85-92): a string key other than `setProperty`
        goes through `setStyleProperty` and into the snapshot; anything else
        changes nothing. The trap always reports success. */
    method Set(key: PropertyKey, value: string) returns (ok: bool)
      requires owner.runtime.Valid()
      modifies this, owner, owner.runtime
      ensures owner.runtime.Valid()
      ensures ok
      ensures key.Name? && key.name != "setProperty" ==>
                owner.styles == Put(old(owner.styles), key.name, value) &&
                target == Put(old(target), key.name, value) &&
                owner.runtime.State() ==
                  Emit(old(owner.runtime.State()), InlineStyle(owner.node, Kebab(key.name), value))
      ensures !(key.Name? && key.name != "setProperty") ==>
                unchanged(this, owner, owner.runtime)
    {
      if key.Name? && key.name != "setProperty" {
        owner.SetStyleProperty(key.name, value);
        target := Put(target, key.name, value);
      }
      ok := true;
    }

    /** `style.setProperty(property, value)` (lines 81-83). */
    method SetProperty(property: string, value: string)
      requires owner.runtime.Valid()
      modifies owner, owner.runtime
      ensures owner.runtime.Valid()
      ensures owner.styles == Put(old(owner.styles), property, value)
      ensures owner.runtime.State() ==
              Emit(old(owner.runtime.State()), InlineStyle(owner.node, Kebab(property), value))
    {
      owner.SetStyleProperty(property, value);
    }
  }

  /** One mutating call made during a synchronous turn. */
  datatype Write =
    | AttrWrite(el: Element, name: string, value: Value)
    | StyleWrite(el: Element, name: string, css: string)
    | InvokeWrite(el: Element, methodName: string, params: Value)

  /** The native event a write makes. */
  function WriteEvent(w: Write): Event {
    match w
    case AttrWrite(el, name, value) => SetAttr(el.node, name, value)
    case StyleWrite(el, name, css) => InlineStyle(el.node, Kebab(name), css)
    case InvokeWrite(el, m, params) => InvokeUI(el.node, m, Nullish(params, Object([])))
  }

  function WriteEvents(ws: seq<Write>): (es: seq<Event>)
    ensures |es| == |ws| && NoFlush(es)
    ensures forall i :: 0 <= i < |ws| ==> es[i] == WriteEvent(ws[i])
  {
    if ws == [] then [] else WriteEvents(ws[..|ws| - 1]) + [WriteEvent(ws[|ws| - 1])]
  }

  /** Making one write: the native event, then the flush armed. */
  method Perform(w: Write)
    requires w.el.runtime.Valid()
    modifies w.el, w.el.runtime
    ensures w.el.runtime.Valid()
    ensures w.el.runtime.State() == Emit(old(w.el.runtime.State()), WriteEvent(w))
  {
    match w {
      case AttrWrite(el, name, value) =>
        el.SetAttribute(name, value);
      case StyleWrite(el, name, css) =>
        el.SetStyleProperty(name, css);
      case InvokeWrite(el, m, params) =>
        var _ := el.Invoke(m, params);
    }
  }

  /** A synchronous turn of writes on any Elements of one runtime, followed by
      the microtask checkpoint: the native layer sees the writes in call order
      and then exactly one flush. */
  method Turn(rt: Runtime, ws: seq<Write>)
    requires rt.Valid()
    requires forall i :: 0 <= i < |ws| ==> ws[i].el.runtime == rt
    modifies rt, set i | 0 <= i < |ws| :: ws[i].el
    ensures rt.Valid()
    ensures rt.State() == Drain(EmitAll(old(rt.State()), WriteEvents(ws)))
    ensures rt.State() == World(old(rt.trace) + WriteEvents(ws) +
                                (if old(rt.willFlush) || ws != [] then [Flush] else []), false, 0)
  {
    ghost var start := rt.State();
    var i := 0;
    while i < |ws|
      invariant 0 <= i <= |ws|
      invariant rt.Valid()
      invariant rt.State() == EmitAll(start, WriteEvents(ws[..i]))
    {
      ghost var done := WriteEvents(ws[..i]);
      Perform(ws[i]);
      EmitAllSnoc(start, done, WriteEvent(ws[i]));
      assert WriteEvents(ws[..i + 1]) == done + [WriteEvent(ws[i])] by {
        assert ws[..i + 1][..i] == ws[..i];
      }
      i := i + 1;
    }
    assert ws[..|ws|] == ws;
    ghost var es := WriteEvents(ws);
    ghost var trace0 := start.trace;
    ghost var armed := start.willFlush;
    assert Coherent(start) && NoFlush(es);
    OneFlushPerTurn(start, es);
    ghost var final := World(trace0 + es + (if armed || ws != [] then [Flush] else []), false, 0);
    assert Drain(EmitAll(start, es)) == final;
    rt.RunMicrotasks();
    assert rt.State() == final;
  }
}
