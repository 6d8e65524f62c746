/**
 * Character classes and string helpers shared by the Python harness and the
 * React demo: the whitespace sets of the two regular-expression engines,
 * ASCII case folding, Python's `str.strip()` and Python's string ordering.
 */
module Text {

  /** The characters Python's `str.isspace()` and the `\s` class of `re` accept. */
  const PySpaces: set<char> := {
    '\t', '\n', '\U{0B}', '\U{0C}', '\r', '\U{1C}', '\U{1D}', '\U{1E}', '\U{1F}', ' ',
    '\U{85}', '\U{A0}', '\U{1680}',
    '\U{2000}', '\U{2001}', '\U{2002}', '\U{2003}', '\U{2004}', '\U{2005}',
    '\U{2006}', '\U{2007}', '\U{2008}', '\U{2009}', '\U{200A}',
    '\U{2028}', '\U{2029}', '\U{202F}', '\U{205F}', '\U{3000}'
  }

  /** The characters the `\s` class of JavaScript regular expressions accepts. */
  const JsSpaces: set<char> := {
    '\t', '\n', '\U{0B}', '\U{0C}', '\r', ' ', '\U{A0}', '\U{1680}',
    '\U{2000}', '\U{2001}', '\U{2002}', '\U{2003}', '\U{2004}', '\U{2005}',
    '\U{2006}', '\U{2007}', '\U{2008}', '\U{2009}', '\U{200A}',
    '\U{2028}', '\U{2029}', '\U{202F}', '\U{205F}', '\U{3000}', '\U{FEFF}'
  }

  /** The ASCII decimal digits (the part of `\d` this model covers). */
  const Digits: set<char> := {'0', '1', '2', '3', '4', '5', '6', '7', '8', '9'}

  /** The digits are exactly the characters from '0' to '9'. */
  lemma DigitsRange(c: char)
    ensures c in Digits <==> '0' <= c <= '9'
  {
  }

  /** Whitespace lies outside the printable ASCII range, so no digit or letter is whitespace. */
  lemma SpacesAreNotPrintable()
    ensures forall c :: c in PySpaces ==> c <= ' ' || '~' < c
  {
  }

  function LowerChar(c: char): (d: char)
    ensures 'A' <= c <= 'Z' ==> d as int == c as int + 32
    ensures !('A' <= c <= 'Z') ==> d == c
  {
    if 'A' <= c <= 'Z' then (c as int + 32) as char else c
  }

  /** `str.lower()` / `String.prototype.toLowerCase()` on the ASCII letters. */
  function Lower(s: string): string {
    seq(|s|, k requires 0 <= k < |s| => LowerChar(s[k]))
  }

  lemma {:induction false} LowerIdempotent(s: string)
    ensures Lower(Lower(s)) == Lower(s)
  {
    var l := Lower(s);
    assert forall k :: 0 <= k < |l| ==> LowerChar(l[k]) == l[k];
  }

  /** Index of the first character of `s` at or after `i` that is not whitespace. */
  function SkipSpaces(s: string, i: nat): (j: nat)
    requires i <= |s|
    ensures i <= j <= |s|
    ensures forall k :: i <= k < j ==> s[k] in PySpaces
    ensures j < |s| ==> s[j] !in PySpaces
    decreases |s| - i
  {
    if i < |s| && s[i] in PySpaces then SkipSpaces(s, i + 1) else i
  }

  /** One past the last character of `s[..j]` that is not whitespace, or `lo` if there is none from `lo` on. */
  function TrimEnd(s: string, lo: nat, j: nat): (e: nat)
    requires lo <= j <= |s|
    ensures lo <= e <= j
    ensures forall k :: e <= k < j ==> s[k] in PySpaces
    ensures e > lo ==> s[e - 1] !in PySpaces
    decreases j
  {
    if j > lo && s[j - 1] in PySpaces then TrimEnd(s, lo, j - 1) else j
  }

  /** Python's `str.strip()` with no argument: drop leading and trailing whitespace. */
  function Strip(s: string): (r: string)
    ensures exists i, j :: (0 <= i <= j <= |s| && r == s[i..j] &&
      (forall k :: 0 <= k < i ==> s[k] in PySpaces) &&
      (forall k :: j <= k < |s| ==> s[k] in PySpaces))
    ensures r != [] ==> r[0] !in PySpaces && r[|r| - 1] !in PySpaces
  {
    var i := SkipSpaces(s, 0);
    var j := TrimEnd(s, i, |s|);
    s[i..j]
  }

  lemma StripIdempotent(s: string)
    ensures Strip(Strip(s)) == Strip(s)
  {
    var r := Strip(s);
    assert SkipSpaces(r, 0) == 0;
    assert TrimEnd(r, 0, |r|) == |r|;
  }

  /** Python's `<` on strings: code-point lexicographic order, a proper prefix first. */
  predicate LexLess(a: string, b: string)
    decreases |a|
  {
    if a == [] then b != []
    else if b == [] then false
    else if a[0] < b[0] then true
    else a[0] == b[0] && LexLess(a[1..], b[1..])
  }

  lemma {:induction false} LexIrreflexive(a: string)
    ensures !LexLess(a, a)
  {
    if a != [] { LexIrreflexive(a[1..]); }
  }

  lemma {:induction false} LexTransitive(a: string, b: string, c: string)
    requires LexLess(a, b) && LexLess(b, c)
    ensures LexLess(a, c)
  {
    if a != [] && b != [] && c != [] && a[0] == b[0] == c[0] {
      LexTransitive(a[1..], b[1..], c[1..]);
    }
  }

  lemma {:induction false} LexTotal(a: string, b: string)
    requires a != b
    ensures LexLess(a, b) || LexLess(b, a)
  {
    if a != [] && b != [] && a[0] == b[0] {
      assert a == [a[0]] + a[1..] && b == [b[0]] + b[1..];
      LexTotal(a[1..], b[1..]);
    }
  }

  lemma {:induction false} LexAsymmetric(a: string, b: string)
    requires LexLess(a, b)
    ensures !LexLess(b, a)
  {
    if a != [] && b != [] && a[0] == b[0] {
      LexAsymmetric(a[1..], b[1..]);
    }
  }

  predicate StrictlySorted(s: seq<string>) {
    forall i, j :: 0 <= i < j < |s| ==> LexLess(s[i], s[j])
  }

  function Elems(s: seq<string>): set<string> {
    set x | x in s
  }

  /** Insert `x` into a strictly sorted sequence, keeping one copy of each string. */
  function InsertSorted(x: string, s: seq<string>): (r: seq<string>)
    requires StrictlySorted(s)
    ensures StrictlySorted(r)
    ensures Elems(r) == Elems(s) + {x}
    ensures r != [] && (s == [] || r[0] == x || r[0] == s[0])
  {
    if s == [] then [x]
    else if x == s[0] then s
    else if LexLess(x, s[0]) then
      assert forall j :: 0 <= j < |s| ==> LexLess(x, s[j]) by {
        forall j | 0 <= j < |s| ensures LexLess(x, s[j]) {
          if j > 0 { LexTransitive(x, s[0], s[j]); }
        }
      }
      [x] + s
    else
      LexTotal(x, s[0]);
      var t := InsertSorted(x, s[1..]);
      var r := [s[0]] + t;
      assert StrictlySorted(r) by {
        forall i, j | 0 <= i < j < |r| ensures LexLess(r[i], r[j]) {
          if i == 0 {
            assert r[j] in Elems(t);
            assert r[j] == x || r[j] in Elems(s[1..]);
          }
        }
      }
      assert s == [s[0]] + s[1..];
      assert Elems(r) == {s[0]} + Elems(t);
      assert Elems(s) == {s[0]} + Elems(s[1..]);
      r
  }

  /** `sorted(set(names))`: the distinct strings of `names`, in ascending order. */
  function SortedDistinct(names: seq<string>): (r: seq<string>)
    ensures StrictlySorted(r)
    ensures Elems(r) == Elems(names)
  {
    if names == [] then []
    else
      var init := names[..|names| - 1];
      assert names == init + [names[|names| - 1]];
      InsertSorted(names[|names| - 1], SortedDistinct(init))
  }
}
