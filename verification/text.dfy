/**
 Character classes and literal searches on strings, as the regular
 expressions of the log classifier use them. Lines come from a Python 2 byte
 string, so `\d` and `\s` have their ASCII meaning.
 */
module Text {
  import opened Wrappers

  /** `\d`: an ASCII digit. */
  predicate IsDigit(c: char) {
    '0' <= c <= '9'
  }

  /** `\s`: space, tab, newline, carriage return, vertical tab or form feed. */
  predicate IsSpace(c: char) {
    c == ' ' || c == '\t' || c == '\n' || c == '\r' || c == 11 as char || c == 12 as char
  }

  /** The literal `a` sits in `s` starting at index `i`. */
  predicate OccursAt(s: string, a: string, i: int) {
    0 <= i && i + |a| <= |s| && s[i..i + |a|] == a
  }

  /** `s` ends with the literal `a`. */
  predicate EndsWith(s: string, a: string) {
    |a| <= |s| && s[|s| - |a|..] == a
  }

  /**
   Compares `a[j..]` with `s` from position `p` on, one character at a
   time; the searches below use it so that they can be evaluated on literals.
   */
  predicate AgreeFrom(s: string, a: string, p: nat, j: nat)
    decreases |a| - j
  {
    if j >= |a| then p <= |s|
    else if p >= |s| then false
    else if s[p] != a[j] then false
    else AgreeFrom(s, a, p + 1, j + 1)
  }

  lemma {:induction false} AgreeFromMeansSlice(s: string, a: string, p: nat, j: nat)
    requires j <= |a|
    ensures AgreeFrom(s, a, p, j) <==> p + (|a| - j) <= |s| && s[p..p + (|a| - j)] == a[j..]
    decreases |a| - j
  {
    if j < |a| && p < |s| && s[p] == a[j] {
      AgreeFromMeansSlice(s, a, p + 1, j + 1);
      if p + (|a| - j) <= |s| {
        assert s[p..p + (|a| - j)] == [s[p]] + s[p + 1..p + (|a| - j)];
        assert a[j..] == [a[j]] + a[j + 1..];
      }
    } else if j < |a| && p + (|a| - j) <= |s| {
      assert s[p..p + (|a| - j)][0] != a[j..][0];
    }
  }

  /** Decides `OccursAt` by the character-wise comparison. */
  function LiteralAt(s: string, a: string, i: nat): (b: bool)
    ensures b <==> OccursAt(s, a, i)
  {
    AgreeFromMeansSlice(s, a, i, 0);
    AgreeFrom(s, a, i, 0)
  }

  /** Decides `EndsWith` by the character-wise comparison. */
  function LiteralAtEnd(s: string, a: string): (b: bool)
    ensures b <==> EndsWith(s, a)
  {
    |a| <= |s| && LiteralAt(s, a, |s| - |a|)
  }

  /** The first index at or after `from` whose character satisfies `p`. */
  function FirstIndex(s: string, p: char -> bool, from: nat): (r: Option<nat>)
    decreases |s| - from
    ensures r.Some? ==> from <= r.value < |s| && p(s[r.value])
    ensures r.Some? ==> forall j :: from <= j < r.value ==> !p(s[j])
    ensures r.None? ==> forall j :: from <= j < |s| ==> !p(s[j])
  {
    if from >= |s| then None
    else if p(s[from]) then Some(from)
    else FirstIndex(s, p, from + 1)
  }

  /** An index that satisfies `p` with none before it back to `from` is the one `FirstIndex` finds. */
  lemma FirstIndexAt(s: string, p: char -> bool, from: nat, i: nat)
    requires from <= i < |s| && p(s[i])
    requires forall j :: from <= j < i ==> !p(s[j])
    ensures FirstIndex(s, p, from) == Some(i)
  {
  }

  /** The largest index `i <= k` at which `a` occurs in `s`. */
  function LastOccurrenceUpTo(s: string, a: string, k: int): (r: Option<nat>)
    decreases k + 1
    ensures r.Some? ==> r.value <= k && OccursAt(s, a, r.value)
    ensures r.Some? ==> forall j :: r.value < j <= k ==> !OccursAt(s, a, j)
    ensures r.None? ==> forall j :: 0 <= j <= k ==> !OccursAt(s, a, j)
  {
    if k < 0 then None
    else if LiteralAt(s, a, k) then Some(k)
    else LastOccurrenceUpTo(s, a, k - 1)
  }

  /** The last occurrence of `a` in `s`: where a greedy `(.*)` in front of `a` stops. */
  function LastOccurrence(s: string, a: string): (r: Option<nat>)
    ensures r.Some? ==> OccursAt(s, a, r.value)
    ensures r.Some? ==> forall j :: r.value < j ==> !OccursAt(s, a, j)
    ensures r.None? ==> forall j :: !OccursAt(s, a, j)
  {
    LastOccurrenceUpTo(s, a, |s| - |a|)
  }

  /** Cutting `s` around an occurrence of `a` gives back `s`. */
  lemma CutAround(s: string, a: string, i: int)
    requires OccursAt(s, a, i)
    ensures s == s[..i] + a + s[i + |a|..]
  {
    assert s == s[..i] + s[i..i + |a|] + s[i + |a|..];
  }

  /** In `x + a + y` the literal `a` occurs right after `x`, with `x` before and `y` after it. */
  lemma JoinedAround(x: string, a: string, y: string)
    ensures OccursAt(x + a + y, a, |x|)
    ensures (x + a + y)[..|x|] == x
    ensures (x + a + y)[|x| + |a|..] == y
  {
    var s := x + a + y;
    assert s[|x|..|x| + |a|] == a;
    assert s[..|x|] == x;
    assert s[|x| + |a|..] == y;
  }

  /** An occurrence inside a prefix of `s` is an occurrence in `s`, and back. */
  lemma OccursInPrefix(s: string, a: string, n: nat, i: int)
    requires n <= |s|
    ensures OccursAt(s[..n], a, i) <==> OccursAt(s, a, i) && i + |a| <= n
  {
    if 0 <= i && i + |a| <= n {
      assert s[..n][i..i + |a|] == s[i..i + |a|];
    }
  }
}
