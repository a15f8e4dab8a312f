/** What `getComputedStyle()` returns: a fixed table of twelve defaults, then
    every cached style assigned, in the cache's insertion order, onto the
    kebab-case form of its key. Nothing is asked of the native layer. */
module ComputedStyles {
  import opened Wrappers
  import opened CssName
  import opened StyleMap

  /** The defaults in their source order; two keys are camelCase. */
  const Defaults: Entries := [
    ("display", "flex"),
    ("position", "relative"),
    ("width", "auto"),
    ("height", "auto"),
    ("margin", "0"),
    ("padding", "0"),
    ("backgroundColor", "transparent"),
    ("color", "#000000"),
    ("fontSize", "14px"),
    ("opacity", "1"),
    ("transform", "none"),
    ("transition", "none")
  ]

  /** The table has twelve distinct keys, and exactly two of them, at
      positions 6 and 8 counting from zero, are camelCase. */
  lemma DefaultsTable()
    ensures |Defaults| == 12 && DistinctKeys(Defaults)
    ensures forall i :: 0 <= i < |Defaults| ==> (!NoUpper(Defaults[i].0) <==> i == 6 || i == 8)
  {
    assert DistinctKeys(Defaults);
    assert IsUpper(Defaults[6].0[10]) && IsUpper(Defaults[8].0[4]);
  }

  /** `base` with each cached `(key, value)` assigned onto `Kebab(key)`. */
  function Overlay(base: Entries, cache: Entries): Entries {
    if cache == [] then base
    else
      var last := cache[|cache| - 1];
      Put(Overlay(base, cache[..|cache| - 1]), Kebab(last.0), last.1)
  }

  function ComputedStyle(cache: Entries): Entries {
    Overlay(Defaults, cache)
  }

  /** The value of the last cached entry whose key converts to `css`. */
  function LastOverride(cache: Entries, css: string): Option<string> {
    if cache == [] then None
    else if Kebab(cache[|cache| - 1].0) == css then Some(cache[|cache| - 1].1)
    else LastOverride(cache[..|cache| - 1], css)
  }

  /** Each key of the result holds the value of the last cached entry that
      converts to it, and the base value when no cached entry does. */
  lemma {:induction false} OverlayGet(base: Entries, cache: Entries, css: string)
    ensures Get(Overlay(base, cache), css) ==
            if LastOverride(cache, css).Some? then LastOverride(cache, css) else Get(base, css)
  {
    if cache != [] {
      OverlayGet(base, cache[..|cache| - 1], css);
    }
  }

  /** The base keys keep their places at the front of the result. */
  lemma {:induction false} OverlayKeepsBaseOrder(base: Entries, cache: Entries)
    ensures |Overlay(base, cache)| >= |base|
    ensures forall i :: 0 <= i < |base| ==> Overlay(base, cache)[i].0 == base[i].0
  {
    if cache != [] {
      OverlayKeepsBaseOrder(base, cache[..|cache| - 1]);
    }
  }

  /** A converted key never contains a capital, so no cached entry reaches a
      camelCase key. */
  lemma {:induction false} NoOverrideOfCamelKey(cache: Entries, css: string)
    requires !NoUpper(css)
    ensures LastOverride(cache, css) == None
  {
    if cache != [] {
      NoOverrideOfCamelKey(cache[..|cache| - 1], css);
    }
  }

  /** Whatever is cached, a camelCase default keeps its default value. */
  lemma CamelDefaultStays(cache: Entries, i: int)
    requires 0 <= i < |Defaults| && !NoUpper(Defaults[i].0)
    ensures Get(ComputedStyle(cache), Defaults[i].0) == Some(Defaults[i].1)
  {
    assert DistinctKeys(Defaults);
    GetDistinct(Defaults, i);
    NoOverrideOfCamelKey(cache, Defaults[i].0);
    OverlayGet(Defaults, cache, Defaults[i].0);
  }

  /** So `backgroundColor: 'transparent'` and `fontSize: '14px'` are always in
      the result: setting `backgroundColor` adds a separate `background-color`
      entry rather than replacing the default. */
  lemma BackgroundColorAndFontSizeStay(cache: Entries, key: string, value: string)
    requires (key, value) == ("backgroundColor", "transparent") || (key, value) == ("fontSize", "14px")
    ensures Get(ComputedStyle(cache), key) == Some(value)
  {
    if key == "backgroundColor" {
      assert Defaults[6] == (key, value) && IsUpper(key[10]);
      CamelDefaultStays(cache, 6);
    } else {
      assert Defaults[8] == (key, value) && IsUpper(key[4]);
      CamelDefaultStays(cache, 8);
    }
  }

  /** With nothing cached the result is the default table. */
  lemma EmptyCacheGivesDefaults()
    ensures ComputedStyle([]) == Defaults
  {
  }
}
