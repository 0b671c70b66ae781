/**
 * The few pieces of Python's `str` behaviour the scraper relies on:
 * `str.strip()`, `str.split()` with no argument, the substring test `p in s`,
 * and the decimal formatting of a page number inside an f-string.
 */
module PyText {
  import opened Wrappers

  /** Python's `str.isspace()` on one character: the characters that
      `strip()` removes and `split()` splits on. */
  predicate IsSpace(c: char) {
    || c == ' '
    || ('\t' <= c <= '\r')
    || ('\U{1C}' <= c <= '\U{1F}')
    || c == '\U{85}'
    || c == '\U{A0}'
    || c == '\U{1680}'
    || ('\U{2000}' <= c <= '\U{200A}')
    || c == '\U{2028}'
    || c == '\U{2029}'
    || c == '\U{202F}'
    || c == '\U{205F}'
    || c == '\U{3000}'
  }

  ghost predicate AllSpace(s: string) {
    forall i :: 0 <= i < |s| ==> IsSpace(s[i])
  }

  ghost predicate NoSpace(s: string) {
    forall i :: 0 <= i < |s| ==> !IsSpace(s[i])
  }

  /** The number of whitespace characters at the front of `s`. */
  function LeadingSpaces(s: string): (n: nat)
    ensures n <= |s|
    ensures forall k :: 0 <= k < n ==> IsSpace(s[k])
    ensures n < |s| ==> !IsSpace(s[n])
  {
    if |s| > 0 && IsSpace(s[0]) then 1 + LeadingSpaces(s[1..]) else 0
  }

  /** The index at which the whitespace run at the end of `s` begins. */
  function TrailingStart(s: string): (n: nat)
    ensures n <= |s|
    ensures forall k :: n <= k < |s| ==> IsSpace(s[k])
    ensures 0 < n ==> !IsSpace(s[n - 1])
  {
    if |s| > 0 && IsSpace(s[|s| - 1]) then TrailingStart(s[..|s| - 1]) else |s|
  }

  /** `r` sits at index `i` of `s` with only whitespace around it. */
  ghost predicate SpaceAround(s: string, r: string, i: int) {
    && 0 <= i <= |s| - |r|
    && s[i..i + |r|] == r
    && (forall j :: 0 <= j < i ==> IsSpace(s[j]))
    && (forall j :: i + |r| <= j < |s| ==> IsSpace(s[j]))
  }

  /** `s.strip()`: the text between the leading and the trailing whitespace. */
  function Strip(s: string): (r: string)
    ensures exists i :: SpaceAround(s, r, i)
    ensures r == [] || (!IsSpace(r[0]) && !IsSpace(r[|r| - 1]))
  {
    var i := LeadingSpaces(s);
    var j := i + TrailingStart(s[i..]);
    assert SpaceAround(s, s[i..j], i);
    s[i..j]
  }

  /** `p` occurs in `s` starting at index `i`. */
  ghost predicate OccursAt(s: string, p: string, i: int) {
    0 <= i <= |s| - |p| && s[i..i + |p|] == p
  }

  /** The Python test `p in s`: `p` occurs somewhere in `s` as a contiguous piece. */
  function Contains(s: string, p: string): (r: bool)
    ensures r <==> exists i :: OccursAt(s, p, i)
    decreases |s|
  {
    if |p| > |s| then false
    else if s[..|p|] == p then
      assert OccursAt(s, p, 0);
      true
    else
      var r := Contains(s[1..], p);
      ContainsShift(s, p);
      r
  }

  /** An occurrence of `p` in `s` that is not at the front is an occurrence in `s[1..]`. */
  lemma ContainsShift(s: string, p: string)
    requires |p| <= |s| && s[..|p|] != p
    ensures (exists i :: OccursAt(s, p, i)) <==> (exists j :: OccursAt(s[1..], p, j))
  {
    if i :| OccursAt(s, p, i) {
      assert i != 0;
      assert s[1..][i - 1..i - 1 + |p|] == s[i..i + |p|];
      assert OccursAt(s[1..], p, i - 1);
    }
    if j :| OccursAt(s[1..], p, j) {
      assert s[j + 1..j + 1 + |p|] == s[1..][j..j + |p|];
      assert OccursAt(s, p, j + 1);
    }
  }

  /** A piece that begins and ends with a non-space character occurs in the
      stripped text exactly when it occurs in the original. */
  lemma ContainsStripped(s: string, p: string)
    requires |p| > 0 && !IsSpace(p[0]) && !IsSpace(p[|p| - 1])
    ensures Contains(Strip(s), p) <==> Contains(s, p)
  {
    var r := Strip(s);
    var i :| SpaceAround(s, r, i);
    if k :| OccursAt(r, p, k) {
      OccursInside(s, r, p, i, k);
    }
    if k :| OccursAt(s, p, k) {
      OccursWithinStripped(s, r, p, i, k);
    }
  }

  lemma OccursInside(s: string, r: string, p: string, i: int, k: int)
    requires SpaceAround(s, r, i) && OccursAt(r, p, k)
    ensures OccursAt(s, p, i + k)
  {
    SliceOfSlice(s, r, i, k, |p|);
  }

  lemma OccursWithinStripped(s: string, r: string, p: string, i: int, k: int)
    requires |p| > 0 && !IsSpace(p[0]) && !IsSpace(p[|p| - 1])
    requires SpaceAround(s, r, i) && OccursAt(s, p, k)
    ensures OccursAt(r, p, k - i)
  {
    assert s[k] == p[0];
    assert s[k + |p| - 1] == p[|p| - 1];
    SliceOfSlice(s, r, i, k - i, |p|);
  }

  /** A piece of a piece of `s` is a piece of `s`. */
  lemma SliceOfSlice(s: string, r: string, i: int, k: int, n: int)
    requires 0 <= i <= |s| - |r| && s[i..i + |r|] == r
    requires 0 <= k && 0 <= n && k + n <= |r|
    ensures r[k..k + n] == s[i + k..i + k + n]
  {
    forall j | k <= j < k + n
      ensures r[j] == s[i + j]
    {
      assert r[j] == s[i..i + |r|][j];
    }
  }

  /** The longest prefix of `s` without whitespace. */
  function TakeWord(s: string): (w: string)
    ensures |w| <= |s| && w == s[..|w|]
    ensures NoSpace(w)
    ensures |w| == |s| || IsSpace(s[|w|])
  {
    if |s| == 0 || IsSpace(s[0]) then [] else [s[0]] + TakeWord(s[1..])
  }

  /** `w` is the first whitespace-delimited token of `s`, starting at index `i`. */
  ghost predicate FirstWordAt(s: string, w: string, i: int) {
    && 0 <= i <= |s| - |w|
    && (forall j :: 0 <= j < i ==> IsSpace(s[j]))
    && s[i..i + |w|] == w
    && |w| > 0 && NoSpace(w)
    && (i + |w| == |s| || IsSpace(s[i + |w|]))
  }

  /** `s.split()[0]`: the first whitespace-delimited token of `s`, or None
      where Python raises IndexError because `s` holds no token at all. */
  function FirstWord(s: string): (r: Option<string>)
    ensures r.None? <==> AllSpace(s)
    ensures r.Some? ==> exists i :: FirstWordAt(s, r.value, i)
  {
    var i := LeadingSpaces(s);
    if i == |s| then
      assert s[..i] == s;
      None
    else
      var w := TakeWord(s[i..]);
      assert s[i..i + |w|] == w;
      assert FirstWordAt(s, w, i);
      Some(w)
  }

  /** The decimal digit for a value below ten. */
  function DigitChar(d: nat): (c: char)
    requires d < 10
    ensures '0' <= c <= '9'
  {
    "0123456789"[d]
  }

  function DigitValue(c: char): nat
    requires '0' <= c <= '9'
  {
    c as nat - '0' as nat
  }

  /** The value of a string of decimal digits. */
  function DecimalValue(s: string): nat
    requires forall i :: 0 <= i < |s| ==> '0' <= s[i] <= '9'
  {
    if s == [] then 0 else DecimalValue(s[..|s| - 1]) * 10 + DigitValue(s[|s| - 1])
  }

  /** `f"{n}"` for a non-negative int: its decimal digits, without leading zeros. */
  function NatToString(n: nat): (s: string)
    ensures |s| > 0
    ensures forall i :: 0 <= i < |s| ==> '0' <= s[i] <= '9'
    ensures s[0] == '0' ==> n == 0 && s == "0"
  {
    if n < 10 then [DigitChar(n)] else NatToString(n / 10) + [DigitChar(n % 10)]
  }

  /** Reading back the digits of `f"{n}"` gives `n`. */
  lemma {:induction false} NatToStringRoundTrip(n: nat)
    ensures DecimalValue(NatToString(n)) == n
  {
    var s := NatToString(n);
    if n < 10 {
      assert s[..|s| - 1] == [];
    } else {
      var q, d := n / 10, n % 10;
      NatToStringRoundTrip(q);
      assert s == NatToString(q) + [DigitChar(d)];
      assert s[..|s| - 1] == NatToString(q);
      assert DigitValue(s[|s| - 1]) == d;
      assert DecimalValue(s) == q * 10 + d;
    }
  }

  /** Distinct numbers format to distinct strings. */
  lemma NatToStringInjective(m: nat, n: nat)
    requires NatToString(m) == NatToString(n)
    ensures m == n
  {
    NatToStringRoundTrip(m);
    NatToStringRoundTrip(n);
  }
}
