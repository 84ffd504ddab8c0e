/** The two path rewrites of the helpers file: `safePath`, which rejects any
    path containing `..` and turns Windows separators into `/`, and
    `normalizePath`, which additionally collapses every run of `/` to one. */
module Paths {

  import opened Wrappers
  import opened Strings

  datatype PathError = InvalidPath

  /** The character `\`. */
  const Backslash: char := 92 as char

  predicate IsSeparator(c: char) {
    c == '/' || c == Backslash
  }

  /** `s.replace(/\\/g, "/")`: every backslash becomes a slash. */
  function ToSlash(s: string): (r: string)
    ensures |r| == |s|
    ensures forall i :: 0 <= i < |s| ==> r[i] == if s[i] == Backslash then '/' else s[i]
  {
    if |s| == 0 then "" else [if s[0] == Backslash then '/' else s[0]] + ToSlash(s[1..])
  }

  /** `safePath`: throws on any `..`, otherwise converts separators. */
  function SafePath(s: string): (r: Result<string, PathError>)
    ensures r.Failure? <==> exists i :: OccursAt(s, "..", i)
    ensures r.Success? ==> |r.value| == |s| && Backslash !in r.value
    ensures r.Success? ==> forall i :: 0 <= i < |s| ==>
      r.value[i] == if s[i] == Backslash then '/' else s[i]
  {
    ContainsAt(s, "..");
    if Contains(s, "..") then Failure(InvalidPath) else Success(ToSlash(s))
  }

  /** No two consecutive slashes. */
  predicate NoDoubleSlash(s: string) {
    forall i :: 0 <= i < |s| - 1 ==> !(s[i] == '/' && s[i + 1] == '/')
  }

  /** `t.replace(/\/+/g, "/")`: every maximal run of slashes becomes one slash. */
  function CollapseSlashes(t: string): (r: string)
    ensures |r| <= |t|
    ensures |t| > 0 ==> |r| > 0 && r[0] == t[0]
    decreases |t|
  {
    if |t| <= 1 then t
    else if t[0] == '/' && t[1] == '/' then CollapseSlashes(t[1..])
    else [t[0]] + CollapseSlashes(t[1..])
  }

  /** `normalizePath` */
  function NormalizePath(s: string): string {
    CollapseSlashes(ToSlash(s))
  }

  /** The characters of `s` that are not separators, in order. */
  function Strip(s: string): (r: string)
    ensures forall i :: 0 <= i < |r| ==> !IsSeparator(r[i])
  {
    if |s| == 0 then ""
    else if IsSeparator(s[0]) then Strip(s[1..])
    else [s[0]] + Strip(s[1..])
  }

  lemma {:induction false} CollapseHasNoDoubleSlash(t: string)
    ensures NoDoubleSlash(CollapseSlashes(t))
    decreases |t|
  {
    if |t| > 1 {
      CollapseHasNoDoubleSlash(t[1..]);
      if !(t[0] == '/' && t[1] == '/') {
        var rest := CollapseSlashes(t[1..]);
        var r := [t[0]] + rest;
        assert rest[0] == t[1];
        forall i | 0 <= i < |r| - 1
          ensures !(r[i] == '/' && r[i + 1] == '/')
        {
          if i > 0 {
            assert r[i] == rest[i - 1] && r[i + 1] == rest[i];
          }
        }
      }
    }
  }

  lemma {:induction false} CollapseKeepsBackslashFree(t: string)
    requires Backslash !in t
    ensures Backslash !in CollapseSlashes(t)
    decreases |t|
  {
    if |t| > 1 {
      assert Backslash !in t[1..];
      CollapseKeepsBackslashFree(t[1..]);
    }
  }

  lemma {:induction false} CollapseIdentity(t: string)
    requires NoDoubleSlash(t)
    ensures CollapseSlashes(t) == t
    decreases |t|
  {
    if |t| > 1 {
      assert !(t[0] == '/' && t[1] == '/');
      assert NoDoubleSlash(t[1..]) by {
        forall i | 0 <= i < |t[1..]| - 1
          ensures !(t[1..][i] == '/' && t[1..][i + 1] == '/')
        {
          assert t[1..][i] == t[i + 1] && t[1..][i + 1] == t[i + 2];
        }
      }
      CollapseIdentity(t[1..]);
      assert t == [t[0]] + t[1..];
    }
  }

  lemma {:induction false} StripCollapse(t: string)
    ensures Strip(CollapseSlashes(t)) == Strip(t)
    decreases |t|
  {
    if |t| > 1 {
      StripCollapse(t[1..]);
      if !(t[0] == '/' && t[1] == '/') {
        assert ([t[0]] + CollapseSlashes(t[1..]))[1..] == CollapseSlashes(t[1..]);
      }
    }
  }

  lemma {:induction false} StripToSlash(s: string)
    ensures Strip(ToSlash(s)) == Strip(s)
    decreases |s|
  {
    if |s| > 0 {
      StripToSlash(s[1..]);
      assert ToSlash(s)[1..] == ToSlash(s[1..]);
    }
  }

  lemma ToSlashIdentity(s: string)
    requires Backslash !in s
    ensures ToSlash(s) == s
  {
  }

  /** `normalizePath` leaves no backslash and no doubled slash. */
  lemma NormalizePathClean(s: string)
    ensures Backslash !in NormalizePath(s)
    ensures NoDoubleSlash(NormalizePath(s))
  {
    CollapseKeepsBackslashFree(ToSlash(s));
    CollapseHasNoDoubleSlash(ToSlash(s));
  }

  /** A path that is already clean is returned unchanged. */
  lemma NormalizePathIdentity(s: string)
    requires Backslash !in s && NoDoubleSlash(s)
    ensures NormalizePath(s) == s
  {
    ToSlashIdentity(s);
    CollapseIdentity(s);
  }

  /** Normalising twice is normalising once. */
  lemma NormalizePathIdempotent(s: string)
    ensures NormalizePath(NormalizePath(s)) == NormalizePath(s)
  {
    NormalizePathClean(s);
    NormalizePathIdentity(NormalizePath(s));
  }

  /** Only separators are rewritten: the other characters survive in order. */
  lemma NormalizePathKeepsContent(s: string)
    ensures Strip(NormalizePath(s)) == Strip(s)
  {
    StripCollapse(ToSlash(s));
    StripToSlash(s);
  }
}
