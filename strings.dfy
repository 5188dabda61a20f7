/**
 * The few `str` operations of the Rust standard library that the suggestion
 * engine relies on: `is_uppercase`, `to_lowercase`, `contains`, `starts_with` and
 * `replace`. Character classes are ASCII only.
 */
module Strings {

  /** `char::is_uppercase`, restricted to ASCII. */
  predicate IsUpper(c: char) {
    'A' <= c <= 'Z'
  }

  /** The lower-case form of one character (ASCII letters only). */
  function LowerChar(c: char): (r: char)
    ensures !IsUpper(r)
    ensures IsUpper(c) ==> r as int == c as int + 32
    ensures !IsUpper(c) ==> r == c
  {
    if IsUpper(c) then (c as int + 32) as char else c
  }

  /** `str::to_lowercase`: every character in its lower-case form, length kept. */
  function ToLower(s: string): (r: string)
    ensures |r| == |s|
    ensures forall i :: 0 <= i < |s| ==> r[i] == LowerChar(s[i])
  {
    if s == [] then [] else [LowerChar(s[0])] + ToLower(s[1..])
  }

  /** `s.chars().any(|c| c.is_uppercase())`. */
  function AnyUpper(s: string): (b: bool)
    ensures b <==> exists i :: 0 <= i < |s| && IsUpper(s[i])
  {
    if s == [] then false
    else if IsUpper(s[0]) then true
    else
      var b := AnyUpper(s[1..]);
      assert forall i :: 1 <= i < |s| ==> s[i] == s[1..][i - 1];
      b
  }

  predicate StartsWith(s: string, prefix: string) {
    |prefix| <= |s| && s[..|prefix|] == prefix
  }

  /** `needle` occurs in `hay` starting at index `i`. */
  predicate OccursAt(hay: string, needle: string, i: int) {
    0 <= i && i + |needle| <= |hay| && hay[i..i + |needle|] == needle
  }

  /** `str::contains`: some window of `hay` equals `needle` (the empty needle occurs everywhere). */
  function Contains(hay: string, needle: string): (b: bool)
    ensures b <==> exists i :: OccursAt(hay, needle, i)
    decreases |hay|
  {
    if StartsWith(hay, needle) then
      assert OccursAt(hay, needle, 0);
      true
    else if hay == [] then
      assert forall i :: !OccursAt(hay, needle, i);
      false
    else
      var b := Contains(hay[1..], needle);
      OccursInTail(hay, needle);
      b
  }

  /** When `needle` is not a prefix of `hay`, it occurs in `hay` exactly when it occurs in its tail. */
  lemma OccursInTail(hay: string, needle: string)
    requires hay != [] && !StartsWith(hay, needle)
    ensures (exists i :: OccursAt(hay, needle, i)) <==> (exists i :: OccursAt(hay[1..], needle, i))
  {
    if i :| OccursAt(hay, needle, i) {
      assert i != 0;
      assert hay[1..][i - 1..i - 1 + |needle|] == hay[i..i + |needle|];
      assert OccursAt(hay[1..], needle, i - 1);
    }
    if i :| OccursAt(hay[1..], needle, i) {
      assert hay[1..][i..i + |needle|] == hay[i + 1..i + 1 + |needle|];
      assert OccursAt(hay, needle, i + 1);
    }
  }

  /** `s.replace(c, with)`: every occurrence of the character `c` becomes the text `with`. */
  function Replace(s: string, c: char, with: string): (r: string)
    ensures |s| == 1 ==> r == (if s[0] == c then with else s)
    ensures c !in s ==> r == s
    ensures c !in with ==> c !in r
  {
    if s == [] then []
    else (if s[0] == c then with else [s[0]]) + Replace(s[1..], c, with)
  }

  /** Replacing distributes over concatenation. */
  lemma {:induction false} ReplaceAppend(a: string, b: string, c: char, with: string)
    ensures Replace(a + b, c, with) == Replace(a, c, with) + Replace(b, c, with)
  {
    if a == [] {
      assert a + b == b;
    } else {
      assert (a + b)[0] == a[0];
      assert (a + b)[1..] == a[1..] + b;
      ReplaceAppend(a[1..], b, c, with);
    }
  }

  /** A lower-cased text never contains a needle that has an upper-case character. */
  lemma LowerExcludesUpper(hay: string, needle: string)
    requires AnyUpper(needle)
    ensures !Contains(ToLower(hay), needle)
  {
    var j :| 0 <= j < |needle| && IsUpper(needle[j]);
  }
}
