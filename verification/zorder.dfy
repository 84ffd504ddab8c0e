/** The element draw order: the three element lists are concatenated
    (printed images, then stickers, then texts) and sorted by `zindex` with
    a stable sort, so equal `zindex` values keep their concatenation order.
    The sort is an insertion sort; its result is characterised independently
    as the unique sorted sequence that keeps, for every `zindex`, the input's
    elements of that `zindex` in their input order. */
module ZOrder {

  import opened Wrappers
  import opened Scene

  ghost predicate Sorted(s: seq<Element>) {
    forall i, j :: 0 <= i < j < |s| ==> s[i].Zindex() <= s[j].Zindex()
  }

  /** The elements of `s` whose `zindex` is `k`, in order. */
  function AtZindex(s: seq<Element>, k: real): seq<Element> {
    if |s| == 0 then []
    else (if s[0].Zindex() == k then [s[0]] else []) + AtZindex(s[1..], k)
  }

  /** Insert `x` before the first element whose `zindex` is not smaller. */
  function Insert(x: Element, s: seq<Element>): seq<Element> {
    if |s| == 0 || x.Zindex() <= s[0].Zindex() then [x] + s
    else [s[0]] + Insert(x, s[1..])
  }

  /** Insertion adds exactly `x` and keeps a sorted sequence sorted. */
  lemma {:induction false} InsertFacts(x: Element, s: seq<Element>)
    ensures multiset(Insert(x, s)) == multiset(s) + multiset{x}
    ensures Sorted(s) ==> Sorted(Insert(x, s))
  {
    if |s| > 0 && s[0].Zindex() < x.Zindex() {
      InsertFacts(x, s[1..]);
      InsertStep(x, s, Insert(x, s[1..]));
    }
  }

  lemma InsertStep(x: Element, s: seq<Element>, rest: seq<Element>)
    requires |s| > 0 && s[0].Zindex() < x.Zindex()
    requires multiset(rest) == multiset(s[1..]) + multiset{x}
    requires Sorted(s[1..]) ==> Sorted(rest)
    ensures Sorted(s) ==> Sorted([s[0]] + rest)
    ensures multiset([s[0]] + rest) == multiset(s) + multiset{x}
  {
    assert s == [s[0]] + s[1..];
    if Sorted(s) {
      SortedTail(s);
      forall j | 0 <= j < |rest| ensures s[0].Zindex() <= rest[j].Zindex() {
        var y := rest[j];
        assert y in multiset(rest);
        assert y in multiset(s[1..]) || y == x;
        if y != x {
          var i :| 0 <= i < |s[1..]| && s[1..][i] == y;
          assert s[i + 1] == y;
        }
      }
    }
  }

  /** `allElements.sort((a, b) => a.element.zindex - b.element.zindex)` */
  function SortByZindex(s: seq<Element>): (r: seq<Element>)
    ensures multiset(r) == multiset(s)
    ensures Sorted(r)
  {
    if |s| == 0 then []
    else
      assert s == [s[0]] + s[1..];
      InsertFacts(s[0], SortByZindex(s[1..]));
      Insert(s[0], SortByZindex(s[1..]))
  }

  /** The draw list before sorting: printed images, stickers, texts. */
  function Merge(scene: MockupScene): (r: seq<Element>)
    ensures var ps, ss, ts := scene.printedImages.GetOr([]), scene.stickers.GetOr([]), scene.texts.GetOr([]);
      && |r| == |ps| + |ss| + |ts|
      && (forall i :: 0 <= i < |ps| ==> r[i] == PrintedImage(ps[i]))
      && (forall i :: 0 <= i < |ss| ==> r[|ps| + i] == Sticker(ss[i]))
      && (forall i :: 0 <= i < |ts| ==> r[|ps| + |ss| + i] == Text(ts[i]))
  {
    Tag(scene.printedImages.GetOr([]), true) + Tag(scene.stickers.GetOr([]), false)
    + TagTexts(scene.texts.GetOr([]))
  }

  function Tag(images: seq<ImageState>, printed: bool): (r: seq<Element>)
    ensures |r| == |images|
    ensures forall i :: 0 <= i < |images| ==> r[i] == if printed then PrintedImage(images[i]) else Sticker(images[i])
  {
    if |images| == 0 then []
    else [if printed then PrintedImage(images[0]) else Sticker(images[0])] + Tag(images[1..], printed)
  }

  function TagTexts(texts: seq<TextState>): (r: seq<Element>)
    ensures |r| == |texts|
    ensures forall i :: 0 <= i < |texts| ==> r[i] == Text(texts[i])
  {
    if |texts| == 0 then [] else [Text(texts[0])] + TagTexts(texts[1..])
  }

  lemma AtZindexCons(y: Element, t: seq<Element>, k: real)
    ensures AtZindex([y] + t, k) == (if y.Zindex() == k then [y] else []) + AtZindex(t, k)
  {
    assert ([y] + t)[1..] == t;
  }

  lemma {:induction false} AtZindexInsert(x: Element, s: seq<Element>, k: real)
    ensures AtZindex(Insert(x, s), k) == (if x.Zindex() == k then [x] else []) + AtZindex(s, k)
  {
    if |s| == 0 || x.Zindex() <= s[0].Zindex() {
      AtZindexCons(x, s, k);
    } else {
      var rest := Insert(x, s[1..]);
      var xs: seq<Element> := if x.Zindex() == k then [x] else [];
      var hs: seq<Element> := if s[0].Zindex() == k then [s[0]] else [];
      assert Insert(x, s) == [s[0]] + rest;
      calc {
        AtZindex(Insert(x, s), k);
        { AtZindexCons(s[0], rest, k); }
        hs + AtZindex(rest, k);
        { AtZindexInsert(x, s[1..], k); }
        hs + (xs + AtZindex(s[1..], k));
        { assert xs == [] || hs == []; }
        xs + (hs + AtZindex(s[1..], k));
        { AtZindexCons(s[0], s[1..], k); assert s == [s[0]] + s[1..]; }
        xs + AtZindex(s, k);
      }
    }
  }

  /** Stability: for every `zindex`, the elements carrying it are drawn in
      the order they had in the concatenated list. */
  lemma {:induction false} SortIsStable(s: seq<Element>, k: real)
    ensures AtZindex(SortByZindex(s), k) == AtZindex(s, k)
  {
    if |s| > 0 {
      SortIsStable(s[1..], k);
      AtZindexInsert(s[0], SortByZindex(s[1..]), k);
    }
  }

  lemma {:induction false} AtZindexAppend(a: seq<Element>, b: seq<Element>, k: real)
    ensures AtZindex(a + b, k) == AtZindex(a, k) + AtZindex(b, k)
  {
    if |a| > 0 {
      AtZindexAppend(a[1..], b, k);
      assert a + b == [a[0]] + (a[1..] + b);
      AtZindexCons(a[0], a[1..] + b, k);
      AtZindexCons(a[0], a[1..], k);
      assert a == [a[0]] + a[1..];
    } else {
      assert a + b == b;
    }
  }

  /** The tie-break of the draw order: among elements of equal `zindex`,
      printed images are drawn first, then stickers, then texts, each group
      in its scene order. */
  lemma DrawOrderOfTies(scene: MockupScene, k: real)
    ensures AtZindex(SortByZindex(Merge(scene)), k)
         == AtZindex(Tag(scene.printedImages.GetOr([]), true), k)
            + AtZindex(Tag(scene.stickers.GetOr([]), false), k)
            + AtZindex(TagTexts(scene.texts.GetOr([])), k)
  {
    var ps, ss := Tag(scene.printedImages.GetOr([]), true), Tag(scene.stickers.GetOr([]), false);
    var ts := TagTexts(scene.texts.GetOr([]));
    SortIsStable(Merge(scene), k);
    AtZindexAppend(ps + ss, ts, k);
    AtZindexAppend(ps, ss, k);
  }

  lemma {:induction false} AtZindexHead(s: seq<Element>)
    requires |s| > 0
    ensures |AtZindex(s, s[0].Zindex())| > 0 && AtZindex(s, s[0].Zindex())[0] == s[0]
  {
  }

  /** A sorted sequence holds no element below its first `zindex`. */
  lemma {:induction false} AtZindexBelowHead(s: seq<Element>, k: real)
    requires Sorted(s) && |s| > 0 && k < s[0].Zindex()
    ensures AtZindex(s, k) == []
    decreases |s|
  {
    if |s| > 1 {
      assert Sorted(s[1..]) by {
        forall i, j | 0 <= i < j < |s[1..]| ensures s[1..][i].Zindex() <= s[1..][j].Zindex() {
          assert s[1..][i] == s[i + 1] && s[1..][j] == s[j + 1];
        }
      }
      assert s[0].Zindex() <= s[1].Zindex();
      AtZindexBelowHead(s[1..], k);
    }
  }

  lemma SortedTail(s: seq<Element>)
    requires Sorted(s) && |s| > 0
    ensures Sorted(s[1..])
  {
    forall i, j | 0 <= i < j < |s[1..]| ensures s[1..][i].Zindex() <= s[1..][j].Zindex() {
      assert s[1..][i] == s[i + 1] && s[1..][j] == s[j + 1];
    }
  }

  /** Two sorted sequences that agree on every `zindex` class are equal. */
  lemma {:induction false} SortedClassesDetermine(a: seq<Element>, b: seq<Element>)
    requires Sorted(a) && Sorted(b)
    requires forall k :: AtZindex(a, k) == AtZindex(b, k)
    ensures a == b
    decreases |a|
  {
    if |a| == 0 {
      if |b| > 0 {
        AtZindexHead(b);
        assert false;
      }
    } else if |b| == 0 {
      AtZindexHead(a);
      assert false;
    } else {
      var ka, kb := a[0].Zindex(), b[0].Zindex();
      AtZindexHead(a);
      AtZindexHead(b);
      if ka < kb {
        AtZindexBelowHead(b, ka);
        assert false;
      } else if kb < ka {
        AtZindexBelowHead(a, kb);
        assert false;
      } else {
        assert AtZindex(a, ka) == AtZindex(b, ka);
        assert a[0] == b[0];
        SortedTail(a);
        SortedTail(b);
        forall k ensures AtZindex(a[1..], k) == AtZindex(b[1..], k) {
          var p := if a[0].Zindex() == k then [a[0]] else [];
          assert AtZindex(a, k) == p + AtZindex(a[1..], k);
          assert AtZindex(b, k) == p + AtZindex(b[1..], k);
          assert AtZindex(a[1..], k) == AtZindex(a, k)[|p|..];
          assert AtZindex(b[1..], k) == AtZindex(b, k)[|p|..];
        }
        SortedClassesDetermine(a[1..], b[1..]);
        assert a == [a[0]] + a[1..] && b == [b[0]] + b[1..];
      }
    }
  }

  /** Any stable sort by `zindex` produces exactly this order. */
  lemma StableSortIsUnique(s: seq<Element>, t: seq<Element>)
    requires Sorted(t)
    requires forall k :: AtZindex(t, k) == AtZindex(s, k)
    ensures t == SortByZindex(s)
  {
    forall k ensures AtZindex(t, k) == AtZindex(SortByZindex(s), k) {
      SortIsStable(s, k);
    }
    SortedClassesDetermine(t, SortByZindex(s));
  }
}
