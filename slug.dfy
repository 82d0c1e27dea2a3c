/** Slugify and its three rune maps from pkg/utils/utils.go. Each helper
    walks the runes of its input and writes exactly one rune per input rune
    to a buffer; a string is its sequence of runes (the decoding of invalid
    UTF-8 is not modelled). */
module Slug {

  /** isAlphanumeric: an ASCII letter or digit. No other rune is one: not
      the '-' Slugify joins words with, and no letter beyond ASCII. */
  predicate IsAlphanumeric(c: char)
    ensures IsAlphanumeric(c) ==> c as int < 0x80 && c != '-' && c != ' '
  {
    ('a' <= c <= 'z') || ('A' <= c <= 'Z') || ('0' <= c <= '9')
  }

  /** The rune toLower writes for `c`: 'A'-'Z' moved up by 32, anything else as is. */
  function LowerRune(c: char): (l: char)
    ensures 'A' <= c <= 'Z' ==> 'a' <= l <= 'z' && l as int == c as int + 32
    ensures !('A' <= c <= 'Z') ==> l == c
  {
    if 'A' <= c <= 'Z' then (c as int + 32) as char else c
  }

  // ---------------------------------------------------------------------
  // The helpers as functions of their input

  /** What replaceNonAlphanumeric(s, r) writes. */
  function NonAlphanumericReplaced(s: string, r: char): (t: string)
    ensures |t| == |s|
    ensures forall i :: 0 <= i < |s| ==> t[i] == if IsAlphanumeric(s[i]) then s[i] else r
  {
    if |s| == 0 then ""
    else
      var c := s[|s| - 1];
      NonAlphanumericReplaced(s[..|s| - 1], r) + [if IsAlphanumeric(c) then c else r]
  }

  /** What replaceSpaces(s, r) writes. */
  function SpacesReplaced(s: string, r: char): (t: string)
    ensures |t| == |s|
    ensures forall i :: 0 <= i < |s| ==> t[i] == if s[i] == ' ' then r else s[i]
  {
    if |s| == 0 then ""
    else
      var c := s[|s| - 1];
      SpacesReplaced(s[..|s| - 1], r) + [if c == ' ' then r else c]
  }

  /** What toLower(s) writes. */
  function Lowered(s: string): (t: string)
    ensures |t| == |s|
    ensures forall i :: 0 <= i < |s| ==> t[i] == LowerRune(s[i])
  {
    if |s| == 0 then "" else Lowered(s[..|s| - 1]) + [LowerRune(s[|s| - 1])]
  }

  /** What Slugify(s) returns: the three maps one after the other. */
  function Slug(s: string): string
  {
    Lowered(SpacesReplaced(NonAlphanumericReplaced(s, ' '), '-'))
  }

  // ---------------------------------------------------------------------
  // The helpers as the loops the code runs

  method ReplaceNonAlphanumeric(s: string, r: char) returns (t: string)
    ensures t == NonAlphanumericReplaced(s, r)
  {
    var buffer := "";
    for i := 0 to |s|
      invariant buffer == NonAlphanumericReplaced(s[..i], r)
    {
      assert s[..i + 1][..i] == s[..i];
      var c := s[i];
      if IsAlphanumeric(c) {
        buffer := buffer + [c];
      } else {
        buffer := buffer + [r];
      }
    }
    assert s[..|s|] == s;
    return buffer;
  }

  method ReplaceSpaces(s: string, r: char) returns (t: string)
    ensures t == SpacesReplaced(s, r)
  {
    var buffer := "";
    for i := 0 to |s|
      invariant buffer == SpacesReplaced(s[..i], r)
    {
      assert s[..i + 1][..i] == s[..i];
      var c := s[i];
      if c == ' ' {
        buffer := buffer + [r];
      } else {
        buffer := buffer + [c];
      }
    }
    assert s[..|s|] == s;
    return buffer;
  }

  method ToLower(s: string) returns (t: string)
    ensures t == Lowered(s)
  {
    var buffer := "";
    for i := 0 to |s|
      invariant buffer == Lowered(s[..i])
    {
      assert s[..i + 1][..i] == s[..i];
      var c := s[i];
      if 'A' <= c && c <= 'Z' {
        buffer := buffer + [(c as int + 32) as char];
      } else {
        buffer := buffer + [c];
      }
    }
    assert s[..|s|] == s;
    return buffer;
  }

  method Slugify(s: string) returns (t: string)
    ensures t == Slug(s)
  {
    t := ReplaceNonAlphanumeric(s, ' ');
    t := ReplaceSpaces(t, '-');
    t := ToLower(t);
  }

  // ---------------------------------------------------------------------
  // Properties of slugs

  /** The rune a slug holds in place of `c`. */
  function SlugRune(c: char): char
  {
    if IsAlphanumeric(c) then LowerRune(c) else '-'
  }

  predicate IsSlugRune(c: char)
  {
    ('a' <= c <= 'z') || ('0' <= c <= '9') || c == '-'
  }

  /** Each rune of the input becomes one rune of the slug, independently of the others. */
  lemma SlugPointwise(s: string)
    ensures |Slug(s)| == |s|
    ensures forall i :: 0 <= i < |s| ==> Slug(s)[i] == SlugRune(s[i])
  {
    var a := NonAlphanumericReplaced(s, ' ');
    var b := SpacesReplaced(a, '-');
    assert forall i :: 0 <= i < |s| ==> b[i] == if IsAlphanumeric(s[i]) then s[i] else '-';
  }

  /** A slug holds only lower-case ASCII letters, digits and '-'. */
  lemma SlugAlphabet(s: string)
    ensures forall i :: 0 <= i < |Slug(s)| ==> IsSlugRune(Slug(s)[i])
  {
    SlugPointwise(s);
  }

  /** Slugifying a slug changes nothing. */
  lemma SlugIdempotent(s: string)
    ensures Slug(Slug(s)) == Slug(s)
  {
    var t := Slug(s);
    SlugPointwise(s);
    SlugPointwise(t);
    assert forall i :: 0 <= i < |t| ==> SlugRune(t[i]) == t[i];
  }

  /** Alphanumerics are kept, with upper case lowered; every other rune becomes '-'. */
  lemma SlugKeeps(s: string, i: int)
    requires 0 <= i < |s|
    ensures IsAlphanumeric(s[i]) ==> Slug(s)[i] == LowerRune(s[i]) && IsAlphanumeric(Slug(s)[i])
    ensures !IsAlphanumeric(s[i]) ==> Slug(s)[i] == '-'
  {
    SlugPointwise(s);
  }

  /** Lowering twice is lowering once. */
  lemma LoweredIdempotent(s: string)
    ensures Lowered(Lowered(s)) == Lowered(s)
  {
  }
}
