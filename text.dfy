/**
  String helpers shared by the parsers: Python's str.strip(), str.lower() on
  ASCII letters, suffix tests and a literal substring search (what re.search
  does for a pattern without metacharacters).
 */
module Text {

  datatype Option<T> = None | Some(value: T)

  /** Python's str.isspace(): the characters str.strip() and the regex `\s` remove. */
  predicate IsSpace(c: char) {
    var n := c as int;
    (9 <= n <= 13) || (28 <= n <= 32) || n == 0x85 || n == 0xA0 || n == 0x1680
    || (0x2000 <= n <= 0x200A) || n == 0x2028 || n == 0x2029 || n == 0x202F
    || n == 0x205F || n == 0x3000
  }

  predicate AllSpace(s: string) {
    forall i :: 0 <= i < |s| ==> IsSpace(s[i])
  }

  /** Neither end of `s` is whitespace. */
  predicate IsTrimmed(s: string) {
    s == [] || (!IsSpace(s[0]) && !IsSpace(s[|s| - 1]))
  }

  /** str.lstrip(): what is left once the leading whitespace is removed. */
  function StripLeft(s: string): (r: string)
    ensures |r| <= |s|
  {
    if s != [] && IsSpace(s[0]) then StripLeft(s[1..]) else s
  }

  /** str.lstrip() removes a prefix of whitespace and keeps a suffix that does not start with whitespace. */
  lemma {:induction false} StripLeftSpec(s: string)
    ensures var r := StripLeft(s);
      && |r| <= |s| && r == s[|s| - |r|..]
      && AllSpace(s[..|s| - |r|])
      && (r == [] || !IsSpace(r[0]))
    decreases |s|
  {
    if s != [] && IsSpace(s[0]) {
      StripLeftSpec(s[1..]);
      var r := StripLeft(s);
      assert s[..|s| - |r|] == [s[0]] + s[1..][..|s| - 1 - |r|];
    }
  }

  /** str.rstrip(): what is left once the trailing whitespace is removed. */
  function StripRight(s: string): (r: string)
    ensures |r| <= |s|
  {
    if s != [] && IsSpace(s[|s| - 1]) then StripRight(s[..|s| - 1]) else s
  }

  /** str.rstrip() removes a suffix of whitespace and keeps a prefix that does not end with whitespace. */
  lemma {:induction false} StripRightSpec(s: string)
    ensures var r := StripRight(s);
      && |r| <= |s| && r == s[..|r|]
      && AllSpace(s[|r|..])
      && (r == [] || !IsSpace(r[|r| - 1]))
    decreases |s|
  {
    if s != [] && IsSpace(s[|s| - 1]) {
      var t := s[..|s| - 1];
      StripRightSpec(t);
      var r := StripRight(s);
      assert s[|r|..] == t[|r|..] + [s[|s| - 1]];
    }
  }

  /** str.strip(): neither end of the result is whitespace. */
  function Strip(s: string): (r: string)
    ensures IsTrimmed(r)
  {
    StripLeftSpec(s);
    StripRightSpec(StripLeft(s));
    StripRight(StripLeft(s))
  }

  /**
    str.strip() returns the slice of `s` that starts after the leading
    whitespace and is followed only by whitespace.
   */
  lemma StripSpec(s: string)
    ensures var i := |s| - |StripLeft(s)|;
      var r := Strip(s);
      && i + |r| <= |s| && r == s[i..i + |r|]
      && AllSpace(s[..i]) && AllSpace(s[i + |r|..])
  {
    var l := StripLeft(s);
    StripLeftSpec(s);
    StripRightSpec(l);
    var r := StripRight(l);
    var i := |s| - |l|;
    assert r == l[..|r|] == s[i..i + |r|];
    assert s[i + |r|..] == l[|r|..];
  }

  /** Stripping text that is already trimmed changes nothing. */
  lemma StripTrimmed(s: string)
    requires IsTrimmed(s)
    ensures Strip(s) == s
  {
  }

  /** Dropping leading whitespace first does not change what str.strip() returns. */
  lemma StripAfterStripLeft(s: string)
    ensures Strip(StripLeft(s)) == Strip(s)
  {
    StripLeftSpec(s);
    var l := StripLeft(s);
    assert StripLeft(l) == l;
  }

  /** A text that ends with a word whose ends are not whitespace still ends with it once stripped. */
  lemma StripKeepsEnd(x: string, w: string)
    requires w != [] && !IsSpace(w[0]) && !IsSpace(w[|w| - 1])
    ensures EndsWith(Strip(x + w), w)
  {
    var s := x + w;
    StripSpec(s);
    var r := Strip(s);
    assert s[|x|] == w[0] && s[|s| - 1] == w[|w| - 1];
    assert r[|r| - |w|..] == s[|x|..] == w;
  }

  function LowerChar(c: char): char {
    if 'A' <= c <= 'Z' then (c as int + 32) as char else c
  }

  /** str.lower() on ASCII letters; every other character is kept. */
  function Lower(s: string): (r: string)
    ensures |r| == |s|
    ensures forall i :: 0 <= i < |s| ==> r[i] == LowerChar(s[i])
  {
    seq(|s|, i requires 0 <= i < |s| => LowerChar(s[i]))
  }

  /** Lower-casing leaves no upper-case ASCII letter, so it is idempotent. */
  lemma LowerIdempotent(s: string)
    ensures forall i :: 0 <= i < |s| ==> !('A' <= Lower(s)[i] <= 'Z')
    ensures Lower(Lower(s)) == Lower(s)
  {
  }

  /** Lower-casing works character by character, so it distributes over concatenation. */
  lemma LowerAppend(a: string, b: string)
    ensures Lower(a + b) == Lower(a) + Lower(b)
  {
    assert forall i :: 0 <= i < |a + b| ==> Lower(a + b)[i] == (Lower(a) + Lower(b))[i];
  }

  predicate EndsWith(s: string, w: string) {
    |w| <= |s| && s[|s| - |w|..] == w
  }

  /** `w` occurs in `s` starting at index `p`. */
  predicate OccursAt(s: string, p: nat, w: string) {
    p + |w| <= |s| && s[p..p + |w|] == w
  }

  /** `p` is the first index at which `w` occurs in `s`. */
  predicate FirstOccurrence(s: string, p: nat, w: string) {
    OccursAt(s, p, w) && forall q: nat :: q < p ==> !OccursAt(s, q, w)
  }

  /** There is only one first occurrence. */
  lemma FirstOccurrenceUnique(s: string, p: nat, w: string)
    requires FirstOccurrence(s, p, w)
    ensures forall q: nat :: FirstOccurrence(s, q, w) ==> q == p
  {
  }

  /** Leftmost occurrence of `w` in `s` at or after `from`. */
  function IndexFrom(s: string, w: string, from: nat): Option<nat>
    decreases |s| - from
  {
    if from + |w| > |s| then None
    else if s[from..from + |w|] == w then Some(from)
    else IndexFrom(s, w, from + 1)
  }

  /** The scan finds an occurrence with none before it, or reports that there is none from `from` on. */
  lemma {:induction false} IndexFromSpec(s: string, w: string, from: nat)
    ensures var r := IndexFrom(s, w, from);
      && (r.Some? ==> from <= r.value && OccursAt(s, r.value, w)
                      && forall q: nat :: from <= q < r.value ==> !OccursAt(s, q, w))
      && (r.None? ==> forall q: nat :: from <= q ==> !OccursAt(s, q, w))
    decreases |s| - from
  {
    if from + |w| <= |s| && s[from..from + |w|] != w {
      IndexFromSpec(s, w, from + 1);
    }
  }

  /** Leftmost occurrence of `w` in `s`, as re.search finds it. */
  function IndexOf(s: string, w: string): Option<nat> {
    IndexFrom(s, w, 0)
  }

  /** The search returns the first occurrence, and None only when there is no occurrence at all. */
  lemma IndexOfSpec(s: string, w: string)
    ensures IndexOf(s, w).Some? ==> FirstOccurrence(s, IndexOf(s, w).value, w)
    ensures IndexOf(s, w).None? ==> forall q: nat :: !OccursAt(s, q, w)
  {
    IndexFromSpec(s, w, 0);
  }

  /** Python's `w in s` for strings. */
  predicate Contains(s: string, w: string) {
    IndexOf(s, w).Some?
  }
}
