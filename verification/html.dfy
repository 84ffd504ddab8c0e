/** The text helpers of the HTML generator: attribute and text escaping,
    camel-case property names to CSS names, and the style-object
    serialiser. */
module HtmlText {

  import opened Strings
  import opened Scene

  // ---------------------------------------------------------------------
  // Escaping

  const Quote: char := 34 as char
  const Apostrophe: char := 39 as char

  /** The characters replaced by an entity. */
  predicate Special(c: char) {
    c == '&' || c == '<' || c == '>' || c == Quote || c == Apostrophe
  }

  function EscapeChar(c: char): (r: string)
    ensures |r| >= 1 && (Special(c) <==> r[0] == '&') && (!Special(c) ==> r == [c])
  {
    if c == '&' then "&amp;"
    else if c == '<' then "&lt;"
    else if c == '>' then "&gt;"
    else if c == Quote then "&quot;"
    else if c == Apostrophe then "&#039;"
    else [c]
  }

  /** `escapeHtml`: each special character becomes its entity. */
  function EscapeHtml(s: string): (r: string)
    ensures |r| >= |s|
    ensures forall i :: 0 <= i < |r| ==> r[i] != '<' && r[i] != '>' && r[i] != Quote && r[i] != Apostrophe
  {
    if |s| == 0 then "" else EscapeChar(s[0]) + EscapeHtml(s[1..])
  }

  /** Decoding of the five entities `EscapeHtml` produces. */
  function Unescape(t: string): string {
    if |t| == 0 then ""
    else if StartsWith(t, "&amp;") then "&" + Unescape(t[5..])
    else if StartsWith(t, "&lt;") then "<" + Unescape(t[4..])
    else if StartsWith(t, "&gt;") then ">" + Unescape(t[4..])
    else if StartsWith(t, "&quot;") then [Quote] + Unescape(t[6..])
    else if StartsWith(t, "&#039;") then [Apostrophe] + Unescape(t[6..])
    else [t[0]] + Unescape(t[1..])
  }

  lemma UnescapeChar(c: char, rest: string)
    ensures Unescape(EscapeChar(c) + rest) == [c] + Unescape(rest)
  {
    if c == '&' {
      UnescapeAmp(rest);
    } else if c == '<' {
      UnescapeLt(rest);
    } else if c == '>' {
      UnescapeGt(rest);
    } else if c == Quote {
      UnescapeQuot(rest);
    } else if c == Apostrophe {
      UnescapeApos(rest);
    } else {
      var t := EscapeChar(c) + rest;
      UnescapePlain(t);
      assert t[0] == c && t[1..] == rest;
    }
  }

  /** A string that differs from `p` at some position of `p` does not start with `p`. */
  lemma Differs(t: string, p: string, i: nat)
    requires i < |p| && i < |t| && t[i] != p[i]
    ensures !StartsWith(t, p)
  {
  }

  lemma UnescapeAmp(rest: string)
    ensures Unescape("&amp;" + rest) == "&" + Unescape(rest)
  {
    var t := "&amp;" + rest;
    assert t[..5] == "&amp;" && t[5..] == rest;
  }

  lemma UnescapeLt(rest: string)
    ensures Unescape("&lt;" + rest) == "<" + Unescape(rest)
  {
    var t := "&lt;" + rest;
    assert t[..4] == "&lt;" && t[4..] == rest;
    assert t[1] == 'l';
    Differs(t, "&amp;", 1);
  }

  lemma UnescapeGt(rest: string)
    ensures Unescape("&gt;" + rest) == ">" + Unescape(rest)
  {
    var t := "&gt;" + rest;
    assert t[..4] == "&gt;" && t[4..] == rest;
    assert t[1] == 'g';
    Differs(t, "&amp;", 1);
    Differs(t, "&lt;", 1);
  }

  lemma UnescapeQuot(rest: string)
    ensures Unescape("&quot;" + rest) == [Quote] + Unescape(rest)
  {
    var t := "&quot;" + rest;
    assert t[..6] == "&quot;" && t[6..] == rest;
    assert t[1] == 'q';
    Differs(t, "&amp;", 1);
    Differs(t, "&lt;", 1);
    Differs(t, "&gt;", 1);
  }

  lemma UnescapeApos(rest: string)
    ensures Unescape("&#039;" + rest) == [Apostrophe] + Unescape(rest)
  {
    var t := "&#039;" + rest;
    assert t[..6] == "&#039;" && t[6..] == rest;
    assert t[1] == '#';
    Differs(t, "&amp;", 1);
    Differs(t, "&lt;", 1);
    Differs(t, "&gt;", 1);
    Differs(t, "&quot;", 1);
  }

  lemma UnescapePlain(t: string)
    requires |t| > 0 && t[0] != '&'
    ensures Unescape(t) == [t[0]] + Unescape(t[1..])
  {
    Differs(t, "&amp;", 0);
    Differs(t, "&lt;", 0);
    Differs(t, "&gt;", 0);
    Differs(t, "&quot;", 0);
    Differs(t, "&#039;", 0);
  }

  /** Escaping loses nothing: decoding the entities gives the text back. */
  lemma {:induction false} EscapeRoundTrip(s: string)
    ensures Unescape(EscapeHtml(s)) == s
  {
    if |s| > 0 {
      var rest := EscapeHtml(s[1..]);
      assert EscapeHtml(s) == EscapeChar(s[0]) + rest;
      UnescapeChar(s[0], rest);
      EscapeRoundTrip(s[1..]);
      assert Unescape(EscapeHtml(s)) == [s[0]] + s[1..];
      assert s == [s[0]] + s[1..];
    }
  }

  /** One of the five entities starts at position `i`. */
  predicate EntityAt(t: string, i: int) {
    OccursAt(t, "&amp;", i) || OccursAt(t, "&lt;", i) || OccursAt(t, "&gt;", i)
    || OccursAt(t, "&quot;", i) || OccursAt(t, "&#039;", i)
  }

  predicate AmpersandsBeginEntities(t: string) {
    forall i :: 0 <= i < |t| && t[i] == '&' ==> EntityAt(t, i)
  }

  lemma EntityShift(head: string, t: string, i: int)
    requires EntityAt(t, i)
    ensures EntityAt(head + t, i + |head|)
  {
    var u := head + t;
    assert forall e: string :: OccursAt(t, e, i) ==> u[i + |head|..i + |head| + |e|] == t[i..i + |e|];
  }

  lemma EscapeCharAmpersands(c: char, rest: string)
    ensures forall i :: 0 <= i < |EscapeChar(c)| && (EscapeChar(c) + rest)[i] == '&' ==> i == 0 && EntityAt(EscapeChar(c) + rest, 0)
  {
    var u := EscapeChar(c) + rest;
    assert u[..|EscapeChar(c)|] == EscapeChar(c);
  }

  /** Every `&` of escaped text begins one of the five entities. */
  lemma {:induction false} EscapeAmpersands(s: string)
    ensures AmpersandsBeginEntities(EscapeHtml(s))
  {
    if |s| > 0 {
      assert EscapeHtml(s) == EscapeChar(s[0]) + EscapeHtml(s[1..]);
      EscapeAmpersands(s[1..]);
      AmpersandsAfterEscapedChar(s[0], EscapeHtml(s[1..]));
    }
  }

  /** Prefixing one escaped character keeps every `&` at an entity. */
  lemma AmpersandsAfterEscapedChar(c: char, rest: string)
    requires AmpersandsBeginEntities(rest)
    ensures AmpersandsBeginEntities(EscapeChar(c) + rest)
  {
    var r := EscapeChar(c) + rest;
    forall i | 0 <= i < |r| && r[i] == '&' ensures EntityAt(r, i) {
      AmpersandAt(c, rest, i);
    }
  }

  lemma AmpersandAt(c: char, rest: string, i: int)
    requires AmpersandsBeginEntities(rest)
    requires 0 <= i < |EscapeChar(c) + rest| && (EscapeChar(c) + rest)[i] == '&'
    ensures EntityAt(EscapeChar(c) + rest, i)
  {
    var head := EscapeChar(c);
    if i >= |head| {
      assert rest[i - |head|] == (head + rest)[i];
      EntityShift(head, rest, i - |head|);
    } else {
      EscapeCharAmpersands(c, rest);
    }
  }

  /** Text with nothing to escape is unchanged. */
  lemma {:induction false} EscapeIdentity(s: string)
    requires forall i :: 0 <= i < |s| ==> !Special(s[i])
    ensures EscapeHtml(s) == s
  {
    if |s| > 0 {
      EscapeIdentity(s[1..]);
      assert s == [s[0]] + s[1..];
    }
  }

  // ---------------------------------------------------------------------
  // Property names

  predicate IsUpper(c: char) { 'A' <= c <= 'Z' }
  predicate IsLower(c: char) { 'a' <= c <= 'z' }

  function ToLower(c: char): (r: char)
    requires IsUpper(c)
    ensures IsLower(r)
  {
    (c as int + 32) as char
  }

  function ToUpper(c: char): (r: char)
    requires IsLower(c)
    ensures IsUpper(r)
  {
    (c as int - 32) as char
  }

  function UpperCount(s: string): nat {
    if |s| == 0 then 0 else (if IsUpper(s[0]) then 1 else 0) + UpperCount(s[1..])
  }

  /** `camelToKebab`: each capital letter becomes `-` and its lower case. */
  function CamelToKebab(s: string): (r: string)
    ensures |r| == |s| + UpperCount(s)
    ensures forall i :: 0 <= i < |r| ==> !IsUpper(r[i])
  {
    if |s| == 0 then ""
    else (if IsUpper(s[0]) then ['-', ToLower(s[0])] else [s[0]]) + CamelToKebab(s[1..])
  }

  /** The inverse: `-` and a lower-case letter become the capital. */
  function KebabToCamel(t: string): string {
    if |t| == 0 then ""
    else if |t| >= 2 && t[0] == '-' && IsLower(t[1]) then [ToUpper(t[1])] + KebabToCamel(t[2..])
    else [t[0]] + KebabToCamel(t[1..])
  }

  /** A name without hyphens survives the conversion and back. */
  lemma {:induction false} KebabRoundTrip(s: string)
    requires forall i :: 0 <= i < |s| ==> s[i] != '-'
    ensures KebabToCamel(CamelToKebab(s)) == s
  {
    if |s| > 0 {
      KebabRoundTrip(s[1..]);
      var rest := CamelToKebab(s[1..]);
      var t := CamelToKebab(s);
      if IsUpper(s[0]) {
        assert t == ['-', ToLower(s[0])] + rest;
        assert t[2..] == rest;
      } else {
        assert t == [s[0]] + rest;
        assert t[1..] == rest;
      }
      assert s == [s[0]] + s[1..];
    }
  }

  /** A name that is already lower case is unchanged. */
  lemma {:induction false} KebabIdentity(s: string)
    requires forall i :: 0 <= i < |s| ==> !IsUpper(s[i])
    ensures CamelToKebab(s) == s
  {
    if |s| > 0 {
      KebabIdentity(s[1..]);
      assert s == [s[0]] + s[1..];
    }
  }

  // ---------------------------------------------------------------------
  // Style objects

  /** JavaScript truthiness of a style value. */
  predicate Truthy(v: StyleValue) {
    match v
    case StyleString(s) => s != ""
    case StyleNumber(n) => n != 0.0
    case StyleUndefined => false
  }

  predicate AllTruthy(style: StyleObject) {
    forall i :: 0 <= i < |style| ==> Truthy(style[i].1)
  }

  /** A value interpolated into a template; `show` renders a number. */
  function Render(v: StyleValue, show: real -> string): string {
    match v
    case StyleString(s) => s
    case StyleNumber(n) => show(n)
    case StyleUndefined => "undefined"
  }

  function Declaration(key: string, v: StyleValue, show: real -> string): (r: string)
    ensures r != ""
  {
    CamelToKebab(key) + ": " + Render(v, show)
  }

  /** The declarations of the truthy entries, in order. */
  function Declarations(style: StyleObject, show: real -> string): (r: seq<string>)
    ensures |r| <= |style|
    ensures forall i :: 0 <= i < |r| ==> r[i] != ""
  {
    if |style| == 0 then []
    else
      var rest := Declarations(style[..|style| - 1], show);
      var (key, v) := style[|style| - 1];
      if Truthy(v) then rest + [Declaration(key, v, show)] else rest
  }

  /** Declarations of a split object are those of its parts. */
  lemma {:induction false} DeclarationsAppend(a: StyleObject, b: StyleObject, show: real -> string)
    ensures Declarations(a + b, show) == Declarations(a, show) + Declarations(b, show)
  {
    if |b| > 0 {
      var init := b[..|b| - 1];
      assert (a + b)[..|a + b| - 1] == a + init;
      assert (a + b)[|a + b| - 1] == b[|b| - 1];
      DeclarationsAppend(a, init, show);
    } else {
      assert a + b == a;
    }
  }

  /** Parts joined by a separator. */
  function Join(parts: seq<string>, sep: string): (r: string)
    ensures |parts| == 0 ==> r == ""
    ensures |parts| > 0 && parts[|parts| - 1] != "" ==> r != ""
  {
    if |parts| == 0 then ""
    else if |parts| == 1 then parts[0]
    else Join(parts[..|parts| - 1], sep) + sep + parts[|parts| - 1]
  }

  function CountTruthy(style: StyleObject): nat {
    if |style| == 0 then 0 else CountTruthy(style[..|style| - 1]) + (if Truthy(style[|style| - 1].1) then 1 else 0)
  }

  /** Exactly one declaration per truthy entry: falsy values are dropped. */
  lemma {:induction false} DeclarationsCount(style: StyleObject, show: real -> string)
    ensures |Declarations(style, show)| == CountTruthy(style)
  {
    if |style| > 0 {
      DeclarationsCount(style[..|style| - 1], show);
    }
  }

  /** An object whose entries are all truthy yields one declaration per
      entry, in entry order. */
  lemma {:induction false} DeclarationsOfTruthy(style: StyleObject, show: real -> string)
    requires AllTruthy(style)
    ensures |Declarations(style, show)| == |style|
    ensures forall i :: 0 <= i < |style| ==>
      Declarations(style, show)[i] == Declaration(style[i].0, style[i].1, show)
  {
    if |style| > 0 {
      var init := style[..|style| - 1];
      DeclarationsOfTruthy(init, show);
      assert forall i :: 0 <= i < |init| ==> init[i] == style[i];
    }
  }

  /** `styleObjectToString`: the truthy entries as `name: value`
      declarations separated by `; `. The loop inserts the separator when the
      text so far is non-empty, which is when a declaration was written,
      since no declaration is empty. */
  method StyleObjectToString(style: StyleObject, show: real -> string) returns (result: string)
    ensures result == Join(Declarations(style, show), "; ")
  {
    result := "";
    var i := 0;
    while i < |style|
      invariant 0 <= i <= |style|
      invariant result == Join(Declarations(style[..i], show), "; ")
      invariant result == "" <==> |Declarations(style[..i], show)| == 0
    {
      var (key, value) := style[i];
      assert style[..i + 1][..i] == style[..i];
      if Truthy(value) {
        if result != "" {
          result := result + "; ";
        }
        result := result + Declaration(key, value, show);
      }
      i := i + 1;
    }
    assert style[..|style|] == style;
  }
}
