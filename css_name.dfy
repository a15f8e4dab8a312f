/** The camelCase to kebab-case rule Element applies to style property names:
    a hyphen is put in front of every ASCII capital letter (the regular
    expression `/([A-Z])/g` replaced by `-$1`), then the whole name is
    lower-cased. */
module CssName {

  /** The character class `[A-Z]`. */
  predicate IsUpper(c: char) {
    'A' <= c <= 'Z'
  }

  /** No character of `s` is an ASCII capital. */
  predicate NoUpper(s: string) {
    forall i :: 0 <= i < |s| ==> !IsUpper(s[i])
  }

  /** `toLowerCase` on one character: a capital becomes the lower-case letter
      at the same place in the alphabet, anything else is kept. */
  function LowerChar(c: char): (d: char)
    ensures !IsUpper(d)
    ensures !IsUpper(c) ==> d == c
    ensures IsUpper(c) ==> 'a' <= d <= 'z' && d as int - 'a' as int == c as int - 'A' as int
  {
    if IsUpper(c) then (c as int + 32) as char else c
  }

  /** The replacement step: every capital is preceded by a hyphen and kept. */
  function HyphenateCapitals(s: string): (r: string)
    ensures NoUpper(s) ==> r == s
  {
    if s == [] then []
    else (if IsUpper(s[0]) then ['-', s[0]] else [s[0]]) + HyphenateCapitals(s[1..])
  }

  /** The lower-casing step, character by character. */
  function ToLower(s: string): (r: string)
    ensures |r| == |s|
    ensures forall i :: 0 <= i < |s| ==> r[i] == LowerChar(s[i])
    ensures NoUpper(r)
    ensures NoUpper(s) ==> r == s
  {
    if s == [] then [] else [LowerChar(s[0])] + ToLower(s[1..])
  }

  /** The CSS property name sent to the native layer for a style key. */
  function Kebab(name: string): (css: string)
    ensures NoUpper(css)
    ensures NoUpper(name) ==> css == name
  {
    ToLower(HyphenateCapitals(name))
  }

  /** Converting an already converted name changes nothing, so kebab-case
      names used verbatim are never hyphenated twice. */
  lemma KebabIdempotent(name: string)
    ensures Kebab(Kebab(name)) == Kebab(name)
  {
  }

  /** Every capital contributes exactly one hyphen: the converted name is
      longer than the original by the number of capitals in it. */
  function Capitals(s: string): nat {
    if s == [] then 0 else (if IsUpper(s[0]) then 1 else 0) + Capitals(s[1..])
  }

  lemma {:induction false} KebabLength(name: string)
    ensures |Kebab(name)| == |name| + Capitals(name)
  {
    HyphenateLength(name);
  }

  lemma {:induction false} HyphenateLength(s: string)
    ensures |HyphenateCapitals(s)| == |s| + Capitals(s)
  {
    if s != [] {
      HyphenateLength(s[1..]);
    }
  }

  /** Both steps work character by character, so they distribute over concatenation. */
  lemma {:induction false} HyphenateAppend(a: string, b: string)
    ensures HyphenateCapitals(a + b) == HyphenateCapitals(a) + HyphenateCapitals(b)
  {
    if a != [] {
      assert (a + b)[1..] == a[1..] + b;
      HyphenateAppend(a[1..], b);
    } else {
      assert a + b == b;
    }
  }

  lemma {:induction false} ToLowerAppend(a: string, b: string)
    ensures ToLower(a + b) == ToLower(a) + ToLower(b)
  {
    if a != [] {
      assert (a + b)[1..] == a[1..] + b;
      ToLowerAppend(a[1..], b);
    } else {
      assert a + b == b;
    }
  }

  /** The replacement on one character: a capital becomes `-` followed by
      that capital, anything else is kept. */
  lemma HyphenateOne(c: char)
    ensures HyphenateCapitals([c]) == if IsUpper(c) then ['-', c] else [c]
  {
    assert [c][1..] == [];
  }

  /** The whole conversion on one character: a capital becomes `-` followed
      by its lower-case letter, anything else is kept. */
  lemma KebabOne(c: char)
    ensures Kebab([c]) == if IsUpper(c) then ['-', LowerChar(c)] else [c]
  {
    HyphenateOne(c);
  }

  /** The conversion distributes over concatenation, so with `KebabOne` it is
      determined for every name, whatever its number of capitals. */
  lemma KebabAppend(a: string, b: string)
    ensures Kebab(a + b) == Kebab(a) + Kebab(b)
  {
    HyphenateAppend(a, b);
    ToLowerAppend(HyphenateCapitals(a), HyphenateCapitals(b));
  }

  /** A capital in front of a capital-free tail: `Xtail` becomes `-xtail`. */
  lemma KebabCapitalThenLower(c: char, tail: string)
    requires IsUpper(c) && NoUpper(tail)
    ensures Kebab([c] + tail) == ['-', LowerChar(c)] + tail
  {
    assert ([c] + tail)[1..] == tail;
    assert HyphenateCapitals([c] + tail) == ['-', c] + tail;
    ToLowerAppend(['-', c], tail);
    assert ToLower(['-', c]) == ['-', LowerChar(c)];
  }

  /** A capital-free head followed by one capital and a capital-free tail. */
  lemma KebabOneCapital(head: string, c: char, tail: string)
    requires NoUpper(head) && IsUpper(c) && NoUpper(tail)
    ensures Kebab(head + [c] + tail) == head + ['-', LowerChar(c)] + tail
  {
    assert head + [c] + tail == head + ([c] + tail);
    HyphenateAppend(head, [c] + tail);
    assert ([c] + tail)[1..] == tail;
    assert HyphenateCapitals([c] + tail) == ['-', c] + tail;
    ToLowerAppend(head, ['-', c] + tail);
    ToLowerAppend(['-', c], tail);
    assert ToLower(['-', c]) == ['-', LowerChar(c)];
  }

  /** The worked cases: `backgroundColor` becomes `background-color`, `width`
      stays `width`, and distinct keys can meet on one CSS name. */
  lemma KebabBackgroundColor(name: string)
    requires name == "backgroundColor"
    ensures Kebab(name) == "background-color"
  {
    assert name == "background" + ['C'] + "olor";
    KebabOneCapital("background", 'C', "olor");
  }

  lemma KebabWidth()
    ensures Kebab("width") == "width"
  {
  }

  lemma KebabFontSize(camel: string, kebab: string)
    requires camel == "fontSize" && kebab == "font-size"
    ensures Kebab(camel) == Kebab(kebab) == kebab
  {
    assert camel == "font" + ['S'] + "ize";
    KebabOneCapital("font", 'S', "ize");
  }
}
