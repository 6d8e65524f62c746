/**
 * The score patterns of the small generative evaluators, `re.search(P, text)`
 * with P of the shape `<atoms>(\d+)`: a label built from single-character
 * classes, each taken once, optionally, any number of times or at least once,
 * followed by a captured run of digits.
 *
 * `Accepts` is the textbook semantics of such a regular expression. `MatchAt`
 * is a greedy scan without backtracking; `MatchAtExact` proves that for an
 * unambiguous pattern (no repeated class can swallow what must follow it) the
 * scan finds exactly the match Python's backtracking engine reports at that
 * position: the one way to reach the digits, then the longest digit run.
 * `Search` is the leftmost such match.
 */
module Pattern {
  import opened Wrappers
  import opened Text

  datatype Rep = One | Opt | Star | Plus

  datatype Atom = Atom(cls: set<char>, rep: Rep)

  /** The regular expression `<prefix>(\d+)` and the criterion name it scores. */
  datatype ScorePattern = ScorePattern(prefix: seq<Atom>, name: string)

  /** Where a match starts, where its captured digits start, and where it ends. */
  datatype Capture = Capture(start: nat, digitsStart: nat, end: nat)

  /** A literal word: one single-character class per letter. */
  function Word(w: string): (r: seq<Atom>)
    ensures |r| == |w|
    ensures forall k :: 0 <= k < |w| ==> r[k] == Atom({w[k]}, One)
  {
    seq(|w|, k requires 0 <= k < |w| => Atom({w[k]}, One))
  }

  predicate AllIn(t: string, i: nat, j: nat, cls: set<char>)
    requires i <= j <= |t|
  {
    forall k :: i <= k < j ==> t[k] in cls
  }

  /** `atoms` matches `t[i..k]`. */
  predicate Accepts(atoms: seq<Atom>, t: string, i: nat, k: nat)
    requires i <= k <= |t|
    decreases |atoms|, k - i
  {
    if atoms == [] then i == k
    else
      var a, rest := atoms[0], atoms[1..];
      match a.rep
      case One => i < k && t[i] in a.cls && Accepts(rest, t, i + 1, k)
      case Opt => Accepts(rest, t, i, k) || (i < k && t[i] in a.cls && Accepts(rest, t, i + 1, k))
      case Star => Accepts(rest, t, i, k) || (i < k && t[i] in a.cls && Accepts(atoms, t, i + 1, k))
      case Plus => i < k && t[i] in a.cls && Accepts([Atom(a.cls, Star)] + rest, t, i + 1, k)
  }

  /** The pattern matches `t[i..e]`, with its digits group at `t[k..e]`. */
  predicate FullMatch(p: ScorePattern, t: string, i: nat, k: nat, e: nat) {
    i <= k < e <= |t| && Accepts(p.prefix, t, i, k) && AllIn(t, k, e, Digits)
  }

  /** The end of the longest run of `cls` characters starting at `i`. */
  function RunEnd(cls: set<char>, t: string, i: nat): (j: nat)
    requires i <= |t|
    ensures i <= j <= |t| && AllIn(t, i, j, cls)
    ensures j < |t| ==> t[j] !in cls
    decreases |t| - i
  {
    if i < |t| && t[i] in cls then RunEnd(cls, t, i + 1) else i
  }

  /** Greedy scan of `atoms` from `i`, never giving back a character. */
  function Scan(atoms: seq<Atom>, t: string, i: nat): (r: Option<nat>)
    requires i <= |t|
    ensures r.Some? ==> i <= r.value <= |t|
    decreases |atoms|
  {
    if atoms == [] then Some(i)
    else
      var a, rest := atoms[0], atoms[1..];
      match a.rep
      case One => if i < |t| && t[i] in a.cls then Scan(rest, t, i + 1) else None
      case Opt => if i < |t| && t[i] in a.cls then Scan(rest, t, i + 1) else Scan(rest, t, i)
      case Star => Scan(rest, t, RunEnd(a.cls, t, i))
      case Plus => if i < |t| && t[i] in a.cls then Scan(rest, t, RunEnd(a.cls, t, i)) else None
  }

  /** The characters a match of `atoms` followed by a `follow` character can start with. */
  function First(atoms: seq<Atom>, follow: set<char>): set<char>
    decreases |atoms|
  {
    if atoms == [] then follow
    else if atoms[0].rep == One || atoms[0].rep == Plus then atoms[0].cls
    else atoms[0].cls + First(atoms[1..], follow)
  }

  /** No optional or repeated class can also start what must come after it. */
  predicate Unambiguous(atoms: seq<Atom>, follow: set<char>)
    decreases |atoms|
  {
    atoms == [] ||
    ((atoms[0].rep != One ==> atoms[0].cls !! First(atoms[1..], follow)) &&
     Unambiguous(atoms[1..], follow))
  }

  /** The greedy match of `p` starting exactly at `i`. */
  function MatchAt(p: ScorePattern, t: string, i: nat): Option<Capture>
    requires i <= |t|
  {
    match Scan(p.prefix, t, i)
    case None => None
    case Some(k) =>
      if k < |t| && t[k] in Digits then Some(Capture(i, k, RunEnd(Digits, t, k))) else None
  }

  /** The leftmost match at or after `i`. */
  function SearchFrom(p: ScorePattern, t: string, i: nat): (r: Option<Capture>)
    requires i <= |t|
    ensures r.Some? ==> i <= r.value.start <= |t| && MatchAt(p, t, r.value.start) == r
    ensures r.Some? ==> forall j :: i <= j < r.value.start ==> MatchAt(p, t, j) == None
    ensures r.None? ==> forall j :: i <= j <= |t| ==> MatchAt(p, t, j) == None
    decreases |t| - i
  {
    var m := MatchAt(p, t, i);
    if m.Some? then m
    else if i == |t| then None
    else SearchFrom(p, t, i + 1)
  }

  /** `re.search(p, t)`. */
  function Search(p: ScorePattern, t: string): Option<Capture> {
    SearchFrom(p, t, 0)
  }

  /** The value of a non-empty string of ASCII digits. */
  function NatOf(ds: string): nat
    decreases |ds|
  {
    if ds == [] then 0
    else NatOf(ds[..|ds| - 1]) * 10 + (ds[|ds| - 1] as int - '0' as int) % 10
  }

  /** `int(m.group(1))` of the leftmost match, or `None` when there is none. */
  function Captured(p: ScorePattern, t: string): Option<nat> {
    match Search(p, t)
    case None => None
    case Some(c) => if c.digitsStart <= c.end <= |t| then Some(NatOf(t[c.digitsStart..c.end])) else None
  }

  // ---------------------------------------------------------------------
  // Building blocks of the score patterns.
  // ---------------------------------------------------------------------

  /** `[Xx]abc`: the first letter in either case, the rest literal. */
  function Label(upper: char, lower: char, rest: string): seq<Atom> {
    [Atom({upper, lower}, One)] + Word(rest)
  }

  lemma {:induction false} WordThen(w: string, rest: seq<Atom>, follow: set<char>)
    requires Unambiguous(rest, follow)
    ensures Unambiguous(Word(w) + rest, follow)
  {
    if w == [] {
      assert Word(w) + rest == rest;
    } else {
      WordThen(w[1..], rest, follow);
      var tail := Word(w[1..]) + rest;
      assert Word(w) + rest == [Atom({w[0]}, One)] + tail;
      assert ([Atom({w[0]}, One)] + tail)[1..] == tail;
    }
  }

  lemma LabelThen(upper: char, lower: char, w: string, rest: seq<Atom>, follow: set<char>)
    requires Unambiguous(rest, follow)
    ensures Unambiguous(Label(upper, lower, w) + rest, follow)
  {
    WordThen(w, rest, follow);
    assert Label(upper, lower, w) + rest == [Atom({upper, lower}, One)] + (Word(w) + rest);
  }

  /** A starred class followed by a mandatory class it does not share needs no backtracking. */
  lemma StarThen(cls: set<char>, rest: seq<Atom>, follow: set<char>)
    requires Unambiguous(rest, follow) && rest != [] && rest[0].rep == One && cls !! rest[0].cls
    ensures Unambiguous([Atom(cls, Star)] + rest, follow)
  {
    assert ([Atom(cls, Star)] + rest)[1..] == rest;
  }

  lemma LabelledUnambiguous(p: ScorePattern, upper: char, lower: char, w: string, tail: seq<Atom>)
    requires p.prefix == Label(upper, lower, w) + tail && Unambiguous(tail, Digits)
    ensures Unambiguous(p.prefix, Digits)
  {
    LabelThen(upper, lower, w, tail, Digits);
  }

  /** A pattern whose first atom is a single class cannot match where that class is absent. */
  lemma NoMatchWithoutStart(p: ScorePattern, t: string, j: nat)
    requires p.prefix != [] && p.prefix[0].rep == One && j <= |t|
    requires j == |t| || t[j] !in p.prefix[0].cls
    ensures MatchAt(p, t, j) == None
  {
  }

  /** The greedy match at `i`, read off the end `k` of the scan of the label. */
  lemma MatchAtFromScan(p: ScorePattern, t: string, i: nat, k: nat)
    requires i <= |t| && Scan(p.prefix, t, i) == Some(k)
    ensures k < |t| && t[k] in Digits ==> MatchAt(p, t, i) == Some(Capture(i, k, RunEnd(Digits, t, k)))
    ensures k == |t| || t[k] !in Digits ==> MatchAt(p, t, i) == None
  {
  }

  /** A single digit's value. */
  lemma NatOfDigit(c: char)
    requires '0' <= c <= '9'
    ensures NatOf([c]) == c as int - '0' as int
  {
    assert [c][..0] == [];
  }

  /** `re.search` finds nothing when no position starts a match. */
  lemma NoMatchNoCapture(p: ScorePattern, t: string)
    requires forall j :: 0 <= j <= |t| ==> MatchAt(p, t, j) == None
    ensures Captured(p, t) == None
  {
  }

  // ---------------------------------------------------------------------
  // The greedy scan agrees with the declarative semantics.
  // ---------------------------------------------------------------------

  lemma {:induction false} StarJoin(a: Atom, rest: seq<Atom>, t: string, i: nat, m: nat, k: nat)
    requires a.rep == Star && i <= m <= k <= |t|
    requires AllIn(t, i, m, a.cls) && Accepts(rest, t, m, k)
    ensures Accepts([a] + rest, t, i, k)
    decreases m - i
  {
    assert ([a] + rest)[1..] == rest;
    if i < m {
      StarJoin(a, rest, t, i + 1, m, k);
    }
  }

  lemma {:induction false} StarSplit(a: Atom, rest: seq<Atom>, t: string, i: nat, k: nat) returns (m: nat)
    requires a.rep == Star && i <= k <= |t|
    requires Accepts([a] + rest, t, i, k)
    ensures i <= m <= k && AllIn(t, i, m, a.cls) && Accepts(rest, t, m, k)
    decreases k - i
  {
    assert ([a] + rest)[1..] == rest;
    if Accepts(rest, t, i, k) {
      m := i;
    } else {
      m := StarSplit(a, rest, t, i + 1, k);
    }
  }

  lemma {:induction false} ScanSound(atoms: seq<Atom>, t: string, i: nat, k: nat)
    requires i <= |t| && Scan(atoms, t, i) == Some(k)
    ensures i <= k <= |t| && Accepts(atoms, t, i, k)
    decreases |atoms|
  {
    if atoms != [] {
      var a, rest := atoms[0], atoms[1..];
      assert atoms == [a] + rest;
      match a.rep
      case One =>
        ScanSound(rest, t, i + 1, k);
      case Opt =>
        if i < |t| && t[i] in a.cls { ScanSound(rest, t, i + 1, k); } else { ScanSound(rest, t, i, k); }
      case Star =>
        var m := RunEnd(a.cls, t, i);
        ScanSound(rest, t, m, k);
        StarJoin(a, rest, t, i, m, k);
      case Plus =>
        var m := RunEnd(a.cls, t, i);
        ScanSound(rest, t, m, k);
        StarJoin(Atom(a.cls, Star), rest, t, i + 1, m, k);
    }
  }

  /** A match of `atoms` that a `follow` character comes after starts with a `First` character. */
  lemma {:induction false} FirstOfMatch(atoms: seq<Atom>, follow: set<char>, t: string, i: nat, k: nat)
    requires i <= k < |t| && Accepts(atoms, t, i, k) && t[k] in follow
    ensures t[i] in First(atoms, follow)
    decreases |atoms|
  {
    if atoms != [] {
      var a, rest := atoms[0], atoms[1..];
      match a.rep
      case One =>
      case Plus =>
      case Opt =>
        if Accepts(rest, t, i, k) { FirstOfMatch(rest, follow, t, i, k); }
      case Star =>
        if Accepts(rest, t, i, k) { FirstOfMatch(rest, follow, t, i, k); }
    }
  }

  /** A run of `cls` characters that cannot be extended ends where `RunEnd` says. */
  lemma {:induction false} RunEndUnique(cls: set<char>, t: string, i: nat, m: nat)
    requires i <= m <= |t| && AllIn(t, i, m, cls) && (m == |t| || t[m] !in cls)
    ensures m == RunEnd(cls, t, i)
    decreases m - i
  {
    if i < m {
      RunEndUnique(cls, t, i + 1, m);
    }
  }

  /** Every run of `cls` characters from `i` stops no later than `RunEnd`. */
  lemma {:induction false} RunEndCovers(cls: set<char>, t: string, i: nat, m: nat)
    requires i <= m <= |t| && AllIn(t, i, m, cls)
    ensures m <= RunEnd(cls, t, i)
    decreases m - i
  {
    if i < m {
      RunEndCovers(cls, t, i + 1, m);
    }
  }

  /** A repeated class stops exactly where the rest of an unambiguous pattern begins. */
  lemma StarStopsAtRunEnd(a: Atom, rest: seq<Atom>, follow: set<char>, t: string, i: nat, m: nat, k: nat)
    requires i <= m <= k < |t| && AllIn(t, i, m, a.cls) && Accepts(rest, t, m, k) && t[k] in follow
    requires a.cls !! First(rest, follow)
    ensures m == RunEnd(a.cls, t, i)
  {
    FirstOfMatch(rest, follow, t, m, k);
    assert t[m] !in a.cls;
    RunEndUnique(a.cls, t, i, m);
  }

  lemma {:induction false} ScanComplete(atoms: seq<Atom>, follow: set<char>, t: string, i: nat, k: nat)
    requires Unambiguous(atoms, follow)
    requires i <= k < |t| && Accepts(atoms, t, i, k) && t[k] in follow
    ensures Scan(atoms, t, i) == Some(k)
    decreases |atoms|
  {
    if atoms != [] {
      var a, rest := atoms[0], atoms[1..];
      assert atoms == [a] + rest;
      match a.rep
      case One =>
        ScanComplete(rest, follow, t, i + 1, k);
      case Opt =>
        if t[i] in a.cls {
          if Accepts(rest, t, i, k) {
            FirstOfMatch(rest, follow, t, i, k);
            assert false;
          }
          ScanComplete(rest, follow, t, i + 1, k);
        } else {
          ScanComplete(rest, follow, t, i, k);
        }
      case Star =>
        var m := StarSplit(a, rest, t, i, k);
        StarStopsAtRunEnd(a, rest, follow, t, i, m, k);
        ScanComplete(rest, follow, t, m, k);
      case Plus =>
        var s := Atom(a.cls, Star);
        var m := StarSplit(s, rest, t, i + 1, k);
        StarStopsAtRunEnd(s, rest, follow, t, i + 1, m, k);
        assert RunEnd(a.cls, t, i) == RunEnd(a.cls, t, i + 1);
        ScanComplete(rest, follow, t, m, k);
    }
  }

  /**
   * For an unambiguous pattern, `MatchAt` reports a match at `i` exactly when
   * the regular expression matches there; its digits start where every match's
   * digits start, and it takes the longest digit run, as greedy `\d+` does.
   */
  lemma MatchAtExact(p: ScorePattern, t: string, i: nat)
    requires i <= |t| && Unambiguous(p.prefix, Digits)
    ensures MatchAt(p, t, i).Some? <==> exists k: nat, e: nat :: FullMatch(p, t, i, k, e)
    ensures MatchAt(p, t, i).Some? ==>
      var c := MatchAt(p, t, i).value;
      c.start == i && FullMatch(p, t, i, c.digitsStart, c.end) &&
      (c.end == |t| || t[c.end] !in Digits) &&
      forall k: nat, e: nat :: FullMatch(p, t, i, k, e) ==> k == c.digitsStart && e <= c.end
  {
    var s := Scan(p.prefix, t, i);
    if s.Some? {
      ScanSound(p.prefix, t, i, s.value);
    }
    forall k: nat, e: nat | FullMatch(p, t, i, k, e)
      ensures MatchAt(p, t, i).Some? && k == MatchAt(p, t, i).value.digitsStart && e <= MatchAt(p, t, i).value.end
    {
      ScanComplete(p.prefix, Digits, t, i, k);
      var c := MatchAt(p, t, i).value;
      RunEndCovers(Digits, t, k, e);
    }
    if MatchAt(p, t, i).Some? {
      var c := MatchAt(p, t, i).value;
      assert FullMatch(p, t, i, c.digitsStart, c.end);
    }
  }

  /** `Search` finds the leftmost position where the pattern matches, and nothing before it. */
  lemma SearchLeftmost(p: ScorePattern, t: string)
    requires Unambiguous(p.prefix, Digits)
    ensures Search(p, t).Some? ==>
      var c := Search(p, t).value;
      c.start <= |t| && MatchAt(p, t, c.start) == Some(c) &&
      exists e: nat :: FullMatch(p, t, c.start, c.digitsStart, e)
    ensures Search(p, t).Some? ==>
      forall j: nat, k: nat, e: nat :: j < Search(p, t).value.start && FullMatch(p, t, j, k, e) ==> false
    ensures Search(p, t).None? ==> forall j: nat, k: nat, e: nat :: FullMatch(p, t, j, k, e) ==> false
  {
    var r := Search(p, t);
    if r.Some? {
      MatchAtExact(p, t, r.value.start);
    }
    forall j: nat, k: nat, e: nat | FullMatch(p, t, j, k, e) && (r.None? || j < r.value.start)
      ensures false
    {
      MatchAtExact(p, t, j);
    }
  }
}
