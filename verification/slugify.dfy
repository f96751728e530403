/** `slugify` on its ASCII branch: the input is the string left after NFKD
    normalisation and dropping every non-ASCII character, which is then
    lower-cased, stripped of everything but word characters, whitespace and
    `-`, has every run of `-` and whitespace turned into one `-`, and loses
    leading and trailing `-` and `_`.

    Python's `\w` on ASCII is `[A-Za-z0-9_]`; its `\s` is the ASCII
    whitespace `\t\n\v\f\r`, the separators `\x1c`-`\x1f` and the space. */
module Slugify {
  import opened Ascii

  /** `\w` */
  predicate IsWord(c: char) { IsAlnum(c) || c == '_' }

  /** `\s`: code points 9-13 and 28-32 (the last one is the space). */
  predicate IsSpace(c: char) { 9 <= c as int <= 13 || 28 <= c as int <= 32 }

  /** `[-\s]`: the characters a run of which becomes one `-`. */
  predicate IsSep(c: char) { c == '-' || IsSpace(c) }

  /** A character of a slug: `[a-z0-9_-]`. */
  predicate IsSlugChar(c: char) { IsLower(c) || IsDigit(c) || c == '_' || c == '-' }

  predicate IsStripped(c: char) { c == '-' || c == '_' }

  /** The shape every slug has: lower-case letters, digits, `_` and `-` only,
      never two `-` in a row, and no `-` or `_` at either end. */
  predicate IsSlug(s: string)
  {
    && (forall i :: 0 <= i < |s| ==> IsSlugChar(s[i]))
    && (forall i :: 0 < i < |s| ==> !(s[i - 1] == '-' && s[i] == '-'))
    && (|s| > 0 ==> !IsStripped(s[0]) && !IsStripped(s[|s| - 1]))
  }

  // ---------------------------------------------------------------------------
  // The four steps

  function LowerChar(c: char): char
  {
    if IsUpper(c) then (c as int + 32) as char else c
  }

  /** `value.lower()` on ASCII text. */
  function Lower(s: string): (t: string)
    ensures |t| == |s|
    ensures forall i :: 0 <= i < |s| ==> t[i] == LowerChar(s[i])
  {
    if s == [] then [] else [LowerChar(s[0])] + Lower(s[1..])
  }

  /** `re.sub(r"[^\w\s-]", "", value)` */
  function RemoveDisallowed(s: string): string
  {
    if s == [] then []
    else (if IsWord(s[0]) || IsSep(s[0]) then [s[0]] else []) + RemoveDisallowed(s[1..])
  }

  /** `re.sub(r"[-\s]+", "-", value)`: the last character of each maximal run
      of separators is replaced by `-`, the others are dropped. */
  function Collapse(s: string): string
  {
    if s == [] then []
    else if !IsSep(s[0]) then [s[0]] + Collapse(s[1..])
    else if |s| > 1 && IsSep(s[1]) then Collapse(s[1..])
    else "-" + Collapse(s[1..])
  }

  function StripLeft(s: string): string
  {
    if s != [] && IsStripped(s[0]) then StripLeft(s[1..]) else s
  }

  function StripRight(s: string): string
  {
    if s != [] && IsStripped(s[|s| - 1]) then StripRight(s[..|s| - 1]) else s
  }

  /** `.strip("-_")` */
  function Strip(s: string): string
  {
    StripRight(StripLeft(s))
  }

  function Slugify(s: string): string
    requires IsAscii(s)
  {
    Strip(Collapse(RemoveDisallowed(Lower(s))))
  }

  // ---------------------------------------------------------------------------
  // Every result is a slug

  /** After lower-casing and filtering only slug characters and whitespace
      are left. */
  lemma {:induction false} RemoveLowered(s: string)
    requires forall i :: 0 <= i < |s| ==> !IsUpper(s[i])
    ensures forall i :: 0 <= i < |RemoveDisallowed(s)| ==>
      IsSlugChar(RemoveDisallowed(s)[i]) || IsSpace(RemoveDisallowed(s)[i])
  {
    if s != [] {
      RemoveLowered(s[1..]);
    }
  }

  /** A collapsed string starts with `-` exactly when the input starts with a
      separator. */
  lemma {:induction false} CollapseHead(s: string)
    requires s != []
    ensures Collapse(s) != []
    ensures Collapse(s)[0] == '-' <==> IsSep(s[0])
  {
    if IsSep(s[0]) && |s| > 1 && IsSep(s[1]) {
      CollapseHead(s[1..]);
    }
  }

  /** Collapsing leaves only the non-separators of the input and `-`, and
      never two `-` in a row. */
  lemma {:induction false} CollapseShape(s: string)
    ensures forall i :: 0 <= i < |Collapse(s)| ==>
      Collapse(s)[i] == '-' || (!IsSep(Collapse(s)[i]) && Collapse(s)[i] in s)
    ensures forall i :: 0 < i < |Collapse(s)| ==> !(Collapse(s)[i - 1] == '-' && Collapse(s)[i] == '-')
  {
    if s != [] {
      CollapseShape(s[1..]);
      var rest := Collapse(s[1..]);
      if |s| > 1 {
        CollapseHead(s[1..]);
      }
      if !IsSep(s[0]) {
        assert Collapse(s) == [s[0]] + rest;
      } else if |s| > 1 && IsSep(s[1]) {
      } else {
        assert Collapse(s) == "-" + rest;
      }
      forall i | 0 <= i < |Collapse(s)| && Collapse(s)[i] != '-'
        ensures Collapse(s)[i] in s
      {
        if Collapse(s) != rest && i > 0 {
          assert Collapse(s)[i] == rest[i - 1];
        }
      }
    }
  }

  /** The characters other than `-` and whitespace, in order. */
  function NonSeps(s: string): string
  {
    if s == [] then [] else (if IsSep(s[0]) then [] else [s[0]]) + NonSeps(s[1..])
  }

  /** Collapsing keeps every character that is not a separator, `_`
      included, in order, and adds none. */
  lemma {:induction false} CollapseKeepsNonSeps(s: string)
    ensures NonSeps(Collapse(s)) == NonSeps(s)
  {
    if s != [] {
      var rest := Collapse(s[1..]);
      CollapseKeepsNonSeps(s[1..]);
      if !IsSep(s[0]) {
        var t := [s[0]] + rest;
        assert t[0] == s[0] && t[1..] == rest;
      } else if !(|s| > 1 && IsSep(s[1])) {
        var t := "-" + rest;
        assert t[0] == '-' && t[1..] == rest;
      }
    }
  }

  /** A prefix ending in a non-separator collapses on its own. */
  lemma {:induction false} CollapseAppend(x: string, z: string)
    requires x != [] && !IsSep(x[|x| - 1])
    ensures Collapse(x + z) == Collapse(x) + Collapse(z)
  {
    var s := x + z;
    assert s[0] == x[0];
    if |x| == 1 {
      assert s[1..] == z;
      assert Collapse(x) == [x[0]] + Collapse(x[1..]);
    } else {
      var tail := x[1..];
      assert s[1..] == tail + z;
      assert s[1] == x[1];
      CollapseAppend(tail, z);
    }
  }

  /** A non-empty run of separators followed by a non-separator (or the end)
      becomes a single `-`. */
  lemma {:induction false} CollapseRunHead(run: string, y: string)
    requires run != [] && forall i :: 0 <= i < |run| ==> IsSep(run[i])
    requires y != [] ==> !IsSep(y[0])
    ensures Collapse(run + y) == "-" + Collapse(y)
  {
    var s := run + y;
    assert s[0] == run[0];
    assert s[1..] == run[1..] + y;
    if |run| > 1 {
      assert s[1] == run[1];
      CollapseRunHead(run[1..], y);
    } else if y != [] {
      assert s[1] == y[0];
    }
  }

  /** `re.sub(r"[-\s]+", "-", ...)` turns each maximal run of `-` and
      whitespace into exactly one `-` and leaves the text around it alone. */
  lemma CollapseRun(x: string, run: string, y: string)
    requires x != [] ==> !IsSep(x[|x| - 1])
    requires run != [] && forall i :: 0 <= i < |run| ==> IsSep(run[i])
    requires y != [] ==> !IsSep(y[0])
    ensures Collapse(x + run + y) == Collapse(x) + "-" + Collapse(y)
  {
    CollapseRunHead(run, y);
    if x != [] {
      assert x + run + y == x + (run + y);
      CollapseAppend(x, run + y);
    } else {
      assert x + run + y == run + y;
    }
  }

  /** Stripping the left end keeps a suffix that does not start with `-` or `_`. */
  lemma {:induction false} StripLeftShape(s: string)
    ensures exists k :: 0 <= k <= |s| && StripLeft(s) == s[k..]
    ensures StripLeft(s) != [] ==> !IsStripped(StripLeft(s)[0])
  {
    if s != [] && IsStripped(s[0]) {
      StripLeftShape(s[1..]);
      var k :| 0 <= k <= |s[1..]| && StripLeft(s[1..]) == s[1..][k..];
      assert s[1..][k..] == s[k + 1..];
    } else {
      assert s == s[0..];
    }
  }

  /** Stripping the right end keeps a prefix that does not end with `-` or `_`. */
  lemma {:induction false} StripRightShape(s: string)
    ensures exists k :: 0 <= k <= |s| && StripRight(s) == s[..k]
    ensures StripRight(s) != [] ==> !IsStripped(StripRight(s)[|StripRight(s)| - 1])
  {
    if s != [] && IsStripped(s[|s| - 1]) {
      StripRightShape(s[..|s| - 1]);
      var k :| 0 <= k <= |s| - 1 && StripRight(s[..|s| - 1]) == s[..|s| - 1][..k];
      assert s[..|s| - 1][..k] == s[..k];
    } else {
      assert s == s[..|s|];
    }
  }

  /** `.strip("-_")` keeps a slice of its input with neither end in `-_`. */
  lemma StripShape(s: string)
    ensures exists a, b :: 0 <= a <= b <= |s| && Strip(s) == s[a..b]
    ensures Strip(s) != [] ==> !IsStripped(Strip(s)[0]) && !IsStripped(Strip(s)[|Strip(s)| - 1])
  {
    var left := StripLeft(s);
    StripLeftShape(s);
    var a :| 0 <= a <= |s| && left == s[a..];
    StripRightShape(left);
    var k :| 0 <= k <= |left| && StripRight(left) == left[..k];
    assert left[..k] == s[a..a + k];
    assert Strip(s) == s[a..a + k];
    if k > 0 {
      assert Strip(s)[0] == left[0];
    }
  }

  /** The output of `slugify` contains only lower-case letters, digits, `_`
      and `-`, so no whitespace; it has no run of two or more `-`, and does
      not start or end with `-` or `_`. */
  lemma SlugifyIsSlug(s: string)
    requires IsAscii(s)
    ensures IsSlug(Slugify(s))
  {
    var lowered := Lower(s);
    var kept := RemoveDisallowed(lowered);
    var collapsed := Collapse(kept);
    RemoveLowered(lowered);
    CollapseShape(kept);
    StripShape(collapsed);
    var a, b :| 0 <= a <= b <= |collapsed| && Strip(collapsed) == collapsed[a..b];
    var out := Strip(collapsed);
    forall i | 0 <= i < |out|
      ensures IsSlugChar(out[i])
    {
      assert out[i] == collapsed[a + i];
    }
    forall i | 0 < i < |out|
      ensures !(out[i - 1] == '-' && out[i] == '-')
    {
      assert out[i - 1] == collapsed[a + i - 1] && out[i] == collapsed[a + i];
    }
  }

  // ---------------------------------------------------------------------------
  // Slugs are fixed points

  lemma {:induction false} LowerSlug(s: string)
    requires forall i :: 0 <= i < |s| ==> IsSlugChar(s[i])
    ensures Lower(s) == s
  {
  }

  lemma {:induction false} RemoveSlug(s: string)
    requires forall i :: 0 <= i < |s| ==> IsSlugChar(s[i])
    ensures RemoveDisallowed(s) == s
  {
    if s != [] {
      RemoveSlug(s[1..]);
    }
  }

  /** Without whitespace and without `--`, collapsing changes nothing. */
  lemma {:induction false} CollapseSlug(s: string)
    requires forall i :: 0 <= i < |s| ==> !IsSpace(s[i])
    requires forall i :: 0 < i < |s| ==> !(s[i - 1] == '-' && s[i] == '-')
    ensures Collapse(s) == s
  {
    if s != [] {
      CollapseSlug(s[1..]);
    }
  }

  lemma StripSlug(s: string)
    requires |s| > 0 ==> !IsStripped(s[0]) && !IsStripped(s[|s| - 1])
    ensures Strip(s) == s
  {
  }

  /** `slugify` leaves a string unchanged exactly when it is a slug. */
  lemma SlugFixedPoint(s: string)
    requires IsAscii(s)
    ensures Slugify(s) == s <==> IsSlug(s)
  {
    if IsSlug(s) {
      LowerSlug(s);
      RemoveSlug(s);
      CollapseSlug(s);
      StripSlug(s);
    } else {
      SlugifyIsSlug(s);
    }
  }

  /** Slugifying twice is slugifying once. */
  lemma SlugifyIdempotent(s: string)
    requires IsAscii(s)
    ensures IsAscii(Slugify(s))
    ensures Slugify(Slugify(s)) == Slugify(s)
  {
    SlugifyIsSlug(s);
    SlugFixedPoint(Slugify(s));
  }

  // ---------------------------------------------------------------------------
  // Letters and digits survive

  /** The letters and digits of `s`, in order. */
  function Alnums(s: string): string
  {
    if s == [] then [] else (if IsAlnum(s[0]) then [s[0]] else []) + Alnums(s[1..])
  }

  lemma {:induction false} AlnumsAppend(a: string, b: string)
    ensures Alnums(a + b) == Alnums(a) + Alnums(b)
  {
    if a != [] {
      assert (a + b)[1..] == a[1..] + b;
      AlnumsAppend(a[1..], b);
    } else {
      assert a + b == b;
    }
  }

  lemma {:induction false} AlnumsRemove(s: string)
    ensures Alnums(RemoveDisallowed(s)) == Alnums(s)
  {
    if s != [] {
      AlnumsRemove(s[1..]);
      AlnumsAppend(if IsWord(s[0]) || IsSep(s[0]) then [s[0]] else [], RemoveDisallowed(s[1..]));
    }
  }

  lemma {:induction false} AlnumsCollapse(s: string)
    ensures Alnums(Collapse(s)) == Alnums(s)
  {
    if s != [] {
      AlnumsCollapse(s[1..]);
      if !IsSep(s[0]) {
        AlnumsAppend([s[0]], Collapse(s[1..]));
      } else if |s| <= 1 || !IsSep(s[1]) {
        AlnumsAppend("-", Collapse(s[1..]));
      }
    }
  }

  lemma {:induction false} AlnumsStripLeft(s: string)
    ensures Alnums(StripLeft(s)) == Alnums(s)
  {
    if s != [] && IsStripped(s[0]) {
      AlnumsStripLeft(s[1..]);
    }
  }

  lemma {:induction false} AlnumsStripRight(s: string)
    ensures Alnums(StripRight(s)) == Alnums(s)
  {
    if s != [] && IsStripped(s[|s| - 1]) {
      AlnumsStripRight(s[..|s| - 1]);
      assert s == s[..|s| - 1] + [s[|s| - 1]];
      AlnumsAppend(s[..|s| - 1], [s[|s| - 1]]);
    }
  }

  /** `slugify` drops no letter or digit and adds none: the letters and digits
      of the result are those of the lower-cased input, in order. */
  lemma SlugifyKeepsAlnums(s: string)
    requires IsAscii(s)
    ensures Alnums(Slugify(s)) == Alnums(Lower(s))
  {
    var kept := RemoveDisallowed(Lower(s));
    AlnumsRemove(Lower(s));
    AlnumsCollapse(kept);
    AlnumsStripLeft(Collapse(kept));
    AlnumsStripRight(StripLeft(Collapse(kept)));
  }
}
