/** Character classes and string tests with Python's `str` semantics. */
module Text {

  /** ASCII decimal digit; the `\d` class of the move pattern, restricted to ASCII. */
  predicate IsDigit(c: char) {
    '0' <= c <= '9'
  }

  /** Python's `str.isspace` set, which is also what `\s` matches in a `str` pattern. */
  predicate IsSpace(c: char) {
    || '\U{9}' <= c <= '\U{D}'
    || '\U{1C}' <= c <= '\U{20}'
    || c == '\U{85}'
    || c == '\U{A0}'
    || c == '\U{1680}'
    || '\U{2000}' <= c <= '\U{200A}'
    || c == '\U{2028}'
    || c == '\U{2029}'
    || c == '\U{202F}'
    || c == '\U{205F}'
    || c == '\U{3000}'
  }

  /** The `\S` class. */
  predicate IsNonSpace(c: char) {
    !IsSpace(c)
  }

  /** `needle` occurs in `hay` starting at index `i`. */
  ghost predicate OccursAt(needle: string, hay: string, i: int) {
    0 <= i && i + |needle| <= |hay| && hay[i..i + |needle|] == needle
  }

  /** `hay` begins with `needle`, compared character by character. */
  predicate StartsWith(hay: string, needle: string)
    decreases |needle|
  {
    |needle| == 0 || (|hay| > 0 && hay[0] == needle[0] && StartsWith(hay[1..], needle[1..]))
  }

  lemma {:induction false} StartsWithIsPrefix(hay: string, needle: string)
    ensures StartsWith(hay, needle) <==> needle <= hay
    decreases |needle|
  {
    if |needle| > 0 && |hay| > 0 {
      StartsWithIsPrefix(hay[1..], needle[1..]);
      assert needle <= hay <==> hay[0] == needle[0] && needle[1..] <= hay[1..];
    }
  }

  /** Python's `needle in hay` for strings: a case-sensitive substring test. */
  predicate Contains(hay: string, needle: string)
    decreases |hay|
  {
    StartsWith(hay, needle) || (|hay| > 0 && Contains(hay[1..], needle))
  }

  /** `Contains` finds exactly the occurrences `OccursAt` describes. */
  lemma {:induction false} ContainsOccurrence(hay: string, needle: string)
    ensures Contains(hay, needle) <==> exists i :: OccursAt(needle, hay, i)
    decreases |hay|
  {
    StartsWithIsPrefix(hay, needle);
    assert OccursAt(needle, hay, 0) <==> needle <= hay;
    if |hay| > 0 {
      ContainsOccurrence(hay[1..], needle);
      forall i | 0 <= i
        ensures OccursAt(needle, hay[1..], i) <==> OccursAt(needle, hay, i + 1)
      {
        if 0 <= i && i + |needle| <= |hay[1..]| {
          assert hay[1..][i..i + |needle|] == hay[i + 1..i + 1 + |needle|];
        }
      }
      if Contains(hay, needle) && !StartsWith(hay, needle) {
        var i :| OccursAt(needle, hay[1..], i);
        assert OccursAt(needle, hay, i + 1);
      }
      if i :| OccursAt(needle, hay, i) {
        if i > 0 {
          assert OccursAt(needle, hay[1..], i - 1);
        }
      }
    } else {
      assert forall i :: OccursAt(needle, hay, i) ==> i == 0;
    }
  }

  /** No occurrence can start in a prefix that lacks the first character of `needle`. */
  lemma {:induction false} ContainsSkipsPrefix(hay: string, needle: string, k: nat)
    requires |needle| > 0 && k <= |hay|
    requires needle[0] !in hay[..k]
    ensures Contains(hay, needle) == Contains(hay[k..], needle)
    decreases k
  {
    if k > 0 {
      assert hay[0] in hay[..k];
      assert hay[1..][..k - 1] == hay[1..k];
      assert forall c :: c in hay[1..k] ==> c in hay[..k];
      ContainsSkipsPrefix(hay[1..], needle, k - 1);
      assert hay[1..][k - 1..] == hay[k..];
    } else {
      assert hay[0..] == hay;
    }
  }

  /** A text that lacks the first character of `needle` does not contain it. */
  lemma AbsentInitial(hay: string, needle: string)
    requires |needle| > 0 && needle[0] !in hay
    ensures !Contains(hay, needle)
  {
    assert hay[..|hay|] == hay;
    ContainsSkipsPrefix(hay, needle, |hay|);
  }

  /** Python's `s.endswith(suffix)`. */
  predicate EndsWith(s: string, suffix: string) {
    |suffix| <= |s| && s[|s| - |suffix|..] == suffix
  }

  /** `str.lower` on one character, restricted to ASCII letters. */
  function LowerChar(c: char): char {
    if 'A' <= c <= 'Z' then (c as int + 32) as char else c
  }

  /**
   * `str.lower`, restricted to ASCII letters: no upper-case letter is left, every other character
   * stays as it is, and each upper-case letter becomes its lower-case partner.
   */
  function Lower(s: string): (r: string)
    ensures |r| == |s|
    ensures forall i :: 0 <= i < |r| ==> !('A' <= r[i] <= 'Z')
    ensures forall i :: 0 <= i < |s| && !('A' <= s[i] <= 'Z') ==> r[i] == s[i]
    ensures forall i :: 0 <= i < |s| && 'A' <= s[i] <= 'Z' ==> r[i] as int - s[i] as int == 'a' as int - 'A' as int
  {
    seq(|s|, i requires 0 <= i < |s| => LowerChar(s[i]))
  }

  /** Lowering an already lowered string changes nothing. */
  lemma LowerIdempotent(s: string)
    ensures Lower(Lower(s)) == Lower(s)
  {
  }

  /** Python's `a <= b` on strings: lexicographic order on code points. */
  predicate LexLe(a: string, b: string) {
    if |a| == 0 then true
    else if |b| == 0 then false
    else if a[0] != b[0] then a[0] < b[0]
    else LexLe(a[1..], b[1..])
  }

  lemma {:induction false} LexLeTotal(a: string, b: string)
    ensures LexLe(a, b) || LexLe(b, a)
    decreases |a|
  {
    if |a| > 0 && |b| > 0 && a[0] == b[0] {
      LexLeTotal(a[1..], b[1..]);
    }
  }

  lemma {:induction false} LexLeTransitive(a: string, b: string, c: string)
    requires LexLe(a, b) && LexLe(b, c)
    ensures LexLe(a, c)
    decreases |a|
  {
    if |a| > 0 && |b| > 0 && |c| > 0 && a[0] == b[0] && b[0] == c[0] {
      LexLeTransitive(a[1..], b[1..], c[1..]);
    }
  }
}
