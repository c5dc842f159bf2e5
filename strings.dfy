/** String helpers standing for the Python `str` methods the core relies on. */
module Strings {

  /** `s.endswith(suffix)`: case-sensitive, character by character. */
  predicate EndsWith(s: string, suffix: string) {
    |suffix| <= |s| && s[|s| - |suffix|..] == suffix
  }

  /** `needle in hay` for two Python strings: `needle` occurs contiguously in `hay`. */
  predicate IsSubstring(needle: string, hay: string)
    decreases |hay|
  {
    needle <= hay || (hay != [] && IsSubstring(needle, hay[1..]))
  }

  /** `needle` occurs in `hay` starting at index `i`. */
  predicate OccursAt(needle: string, hay: string, i: int) {
    0 <= i && i + |needle| <= |hay| && hay[i..i + |needle|] == needle
  }

  lemma PrefixOccursAtStart(needle: string, hay: string)
    ensures needle <= hay <==> OccursAt(needle, hay, 0)
  {
    if |needle| <= |hay| {
      assert hay[0..|needle|] == hay[..|needle|];
    }
  }

  lemma OccursAtShift(needle: string, hay: string, i: int)
    requires hay != [] && 0 <= i
    ensures OccursAt(needle, hay[1..], i) <==> OccursAt(needle, hay, i + 1)
  {
    if 0 <= i && i + |needle| <= |hay| - 1 {
      assert hay[1..][i..i + |needle|] == hay[i + 1..i + 1 + |needle|];
    }
  }

  /** The recursive search finds `needle` exactly when it occurs at some index of `hay`. */
  lemma {:induction false} IsSubstringIff(needle: string, hay: string)
    ensures IsSubstring(needle, hay) <==> exists i :: OccursAt(needle, hay, i)
    decreases |hay|
  {
    PrefixOccursAtStart(needle, hay);
    if hay != [] && !(needle <= hay) {
      IsSubstringIff(needle, hay[1..]);
      if exists i :: OccursAt(needle, hay[1..], i) {
        var i :| OccursAt(needle, hay[1..], i);
        OccursAtShift(needle, hay, i);
      }
      if exists i :: OccursAt(needle, hay, i) {
        var i :| OccursAt(needle, hay, i);
        OccursAtShift(needle, hay, i - 1);
      }
    }
  }

  /** `s.split("\n")`: the pieces between newline characters. */
  function Lines(s: string): (r: seq<string>)
    ensures |r| >= 1
    decreases |s|
  {
    if s == [] then [""]
    else if s[0] == '\n' then [""] + Lines(s[1..])
    else var rest := Lines(s[1..]); [[s[0]] + rest[0]] + rest[1..]
  }

  predicate NoNewline(s: string) {
    forall i :: 0 <= i < |s| ==> s[i] != '\n'
  }

  /** Joining two newline-free strings gives a newline-free string. */
  lemma NoNewlineConcat(a: string, b: string)
    requires NoNewline(a) && NoNewline(b)
    ensures NoNewline(a + b)
  {
    assert forall i :: |a| <= i < |a + b| ==> (a + b)[i] == b[i - |a|];
  }

  /** Splitting `a + "\n" + b` where `a` has no newline yields `a` followed by the pieces of `b`. */
  lemma {:induction false} LinesCons(a: string, b: string)
    requires NoNewline(a)
    ensures Lines(a + "\n" + b) == [a] + Lines(b)
    decreases |a|
  {
    if a == [] {
      assert a + "\n" + b == ['\n'] + b;
      assert (['\n'] + b)[1..] == b;
    } else {
      var s := a + "\n" + b;
      assert s[0] == a[0];
      assert s[1..] == a[1..] + "\n" + b;
      LinesCons(a[1..], b);
      assert [a[0]] + a[1..] == a;
    }
  }

  /** A string without newlines is a single line. */
  lemma {:induction false} LinesSingle(a: string)
    requires NoNewline(a)
    ensures Lines(a) == [a]
    decreases |a|
  {
    if a != [] {
      LinesSingle(a[1..]);
      assert [a[0]] + a[1..] == a;
    }
  }
}
