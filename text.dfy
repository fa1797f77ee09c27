/**
 * The string operations of Python's `str` that the fetcher relies on, over `seq<char>`:
 * `lower`, `in`, `endswith`, `replace` of one character, `split()` with no argument,
 * `sep.join(...)` and `str(n)` for a natural number.
 */
module Text {

  /** Every character of `s` satisfies `ok`. */
  predicate All(s: string, ok: char -> bool)
  {
    forall i :: 0 <= i < |s| ==> ok(s[i])
  }

  lemma AllSlice(s: string, i: nat, j: nat, ok: char -> bool)
    requires All(s, ok) && i <= j <= |s|
    ensures All(s[i..j], ok)
  {
    forall k | 0 <= k < j - i ensures ok(s[i..j][k]) {
      assert s[i..j][k] == s[i + k];
    }
  }

  lemma AllConcat(a: string, b: string, ok: char -> bool)
    requires All(a, ok) && All(b, ok)
    ensures All(a + b, ok)
  {
    forall i | 0 <= i < |a + b| ensures ok((a + b)[i]) {
      if i >= |a| { assert (a + b)[i] == b[i - |a|]; }
    }
  }

  lemma AllSplit(a: string, b: string, ok: char -> bool)
    requires All(a + b, ok)
    ensures All(a, ok) && All(b, ok)
  {
    forall i | 0 <= i < |a| ensures ok(a[i]) {
      assert (a + b)[i] == a[i];
    }
    forall i | 0 <= i < |b| ensures ok(b[i]) {
      assert (a + b)[|a| + i] == b[i];
    }
  }

  // ---------------------------------------------------------------------------
  // Case

  /** `str.lower` on one character, for the ASCII letters. */
  function LowerChar(c: char): char
  {
    if 'A' <= c <= 'Z' then (c as int + 32) as char else c
  }

  /** `str.lower`, character by character. */
  function Lower(s: string): (r: string)
    ensures |r| == |s|
    ensures forall i :: 0 <= i < |s| ==> r[i] == LowerChar(s[i])
  {
    seq(|s|, i requires 0 <= i < |s| => LowerChar(s[i]))
  }

  lemma LowerSlice(s: string, i: nat, j: nat)
    requires i <= j <= |s|
    ensures Lower(s)[i..j] == Lower(s[i..j])
  {
  }

  lemma LowerConcat(a: string, b: string)
    ensures Lower(a + b) == Lower(a) + Lower(b)
  {
  }

  // ---------------------------------------------------------------------------
  // Substrings

  /** `p` occurs in `s` starting at index `i`. */
  predicate OccursAt(s: string, p: string, i: int)
  {
    0 <= i && i + |p| <= |s| && s[i..i + |p|] == p
  }

  predicate StartsWith(s: string, p: string)
  {
    |p| <= |s| && s[..|p|] == p
  }

  /** `str.endswith`. */
  predicate EndsWith(s: string, p: string)
  {
    |p| <= |s| && s[|s| - |p|..] == p
  }

  /** Python's `p in s` for strings: try every starting position from the left. */
  predicate Contains(s: string, p: string)
    decreases |s|
  {
    StartsWith(s, p) || (|s| > 0 && Contains(s[1..], p))
  }

  /** An occurrence at any index makes `Contains` hold. */
  lemma {:induction false} ContainsAt(s: string, p: string, i: int)
    requires OccursAt(s, p, i)
    ensures Contains(s, p)
    decreases i
  {
    if i > 0 {
      assert s[1..][i - 1..i - 1 + |p|] == s[i..i + |p|];
      ContainsAt(s[1..], p, i - 1);
    }
  }

  /** `Contains` is witnessed by an index where `p` occurs. */
  lemma {:induction false} ContainsWitness(s: string, p: string)
    requires Contains(s, p)
    ensures exists i :: OccursAt(s, p, i)
    decreases |s|
  {
    if StartsWith(s, p) {
      assert OccursAt(s, p, 0);
    } else {
      ContainsWitness(s[1..], p);
      var i :| OccursAt(s[1..], p, i);
      assert s[i + 1..i + 1 + |p|] == s[1..][i..i + |p|];
      assert OccursAt(s, p, i + 1);
    }
  }

  /** `Contains` holds exactly when some index of `s` starts an occurrence of `p`. */
  lemma ContainsIff(s: string, p: string)
    ensures Contains(s, p) <==> exists i :: OccursAt(s, p, i)
  {
    if Contains(s, p) {
      ContainsWitness(s, p);
    }
    forall i | OccursAt(s, p, i) ensures Contains(s, p) {
      ContainsAt(s, p, i);
    }
  }

  /** An occurrence inside `s` is still an occurrence inside any string around `s`. */
  lemma ContainsInContext(a: string, s: string, b: string, p: string)
    requires Contains(s, p)
    ensures Contains(a + s + b, p)
  {
    ContainsIff(s, p);
    var i :| OccursAt(s, p, i);
    assert (a + s + b)[|a| + i..|a| + i + |p|] == s[i..i + |p|];
    ContainsAt(a + s + b, p, |a| + i);
  }

  /** Containment of strings is transitive. */
  lemma ContainsTransitive(s: string, q: string, p: string)
    requires Contains(s, q) && Contains(q, p)
    ensures Contains(s, p)
  {
    ContainsIff(s, q);
    ContainsIff(q, p);
    var i :| OccursAt(s, q, i);
    var j :| OccursAt(q, p, j);
    forall k | 0 <= k < |p| ensures s[i + j..i + j + |p|][k] == p[k] {
      assert p[k] == q[j..j + |p|][k] == q[j + k] == s[i..i + |q|][j + k];
    }
    ContainsAt(s, p, i + j);
  }

  /** Lower-casing keeps an occurrence, lower-cased. */
  lemma ContainsLower(s: string, p: string)
    requires Contains(s, p)
    ensures Contains(Lower(s), Lower(p))
  {
    ContainsIff(s, p);
    var i :| OccursAt(s, p, i);
    LowerSlice(s, i, i + |p|);
    ContainsAt(Lower(s), Lower(p), i);
  }

  /** A pattern whose first character is absent from `s` does not occur in `s`. */
  lemma NotContainsFirstChar(s: string, p: string)
    requires |p| > 0
    requires forall i :: 0 <= i < |s| ==> s[i] != p[0]
    ensures !Contains(s, p)
  {
    forall i ensures !OccursAt(s, p, i) {
      if 0 <= i && i + |p| <= |s| {
        assert s[i..i + |p|][0] == s[i];
      }
    }
    ContainsIff(s, p);
  }

  // ---------------------------------------------------------------------------
  // Replacing characters

  /** `str.replace(c, d)` for single characters `c` and `d`. */
  function ReplaceChar(s: string, c: char, d: char): (r: string)
    ensures |r| == |s|
    ensures forall i :: 0 <= i < |s| ==> r[i] == if s[i] == c then d else s[i]
  {
    seq(|s|, i requires 0 <= i < |s| => if s[i] == c then d else s[i])
  }

  // ---------------------------------------------------------------------------
  // Whitespace, split and join

  /**
   * The characters Python's `str.isspace` (and hence `str.split()` and the `\s` of `re`
   * on `str`) treats as whitespace.
   */
  predicate IsSpace(c: char)
  {
    ('\t' <= c <= '\r') || ('\U{1C}' <= c <= ' ') || c == '\U{85}' || c == '\U{A0}' ||
    c == '\U{1680}' || ('\U{2000}' <= c <= '\U{200A}') || c == '\U{2028}' ||
    c == '\U{2029}' || c == '\U{202F}' || c == '\U{205F}' || c == '\U{3000}'
  }

  predicate NotSpace(c: char)
  {
    !IsSpace(c)
  }

  /** Length of the run of whitespace at the front of `s`. */
  function SpaceRun(s: string): (n: nat)
    ensures n <= |s|
    ensures forall i :: 0 <= i < n ==> IsSpace(s[i])
    ensures n < |s| ==> !IsSpace(s[n])
  {
    if s != [] && IsSpace(s[0]) then 1 + SpaceRun(s[1..]) else 0
  }

  /** Length of the run of non-whitespace at the front of `s`. */
  function WordRun(s: string): (n: nat)
    ensures n <= |s|
    ensures forall i :: 0 <= i < n ==> !IsSpace(s[i])
    ensures n < |s| ==> IsSpace(s[n])
  {
    if s != [] && !IsSpace(s[0]) then 1 + WordRun(s[1..]) else 0
  }

  /**
   * `str.split()` with no separator: the maximal runs of non-whitespace, left to right;
   * leading, trailing and repeated whitespace produce no empty words.
   */
  function Split(s: string): (words: seq<string>)
    decreases |s|
  {
    var k := SpaceRun(s);
    if k == |s| then []
    else
      var rest := s[k..];
      var n := WordRun(rest);
      [rest[..n]] + Split(rest[n..])
  }

  /** `sep.join(parts)`. */
  function Join(parts: seq<string>, sep: string): string
  {
    if |parts| == 0 then []
    else if |parts| == 1 then parts[0]
    else parts[0] + sep + Join(parts[1..], sep)
  }

  /** The words `split()` returns are non-empty and hold no whitespace. */
  lemma {:induction false} SplitWords(s: string)
    ensures forall w :: w in Split(s) ==> |w| > 0 && All(w, NotSpace)
    decreases |s|
  {
    var k := SpaceRun(s);
    if k < |s| {
      var rest := s[k..];
      var n := WordRun(rest);
      SplitWords(rest[n..]);
    }
  }

  /** A non-empty string without whitespace splits into itself alone. */
  lemma SplitWord(s: string)
    requires |s| > 0 && All(s, NotSpace)
    ensures Split(s) == [s]
  {
    assert SpaceRun(s) == 0;
    WordRunAll(s);
    assert s[0..] == s && s[..|s|] == s && s[|s|..] == [];
  }

  lemma {:induction false} WordRunAll(s: string)
    requires All(s, NotSpace)
    ensures WordRun(s) == |s|
  {
    if s != [] {
      AllSlice(s, 1, |s|, NotSpace);
      WordRunAll(s[1..]);
    }
  }

  /** A string made only of whitespace splits into nothing. */
  lemma SplitBlank(s: string)
    requires All(s, IsSpace)
    ensures Split(s) == []
  {
    SpaceRunAll(s);
  }

  lemma {:induction false} SpaceRunAll(s: string)
    requires All(s, IsSpace)
    ensures SpaceRun(s) == |s|
  {
    if s != [] {
      AllSlice(s, 1, |s|, IsSpace);
      SpaceRunAll(s[1..]);
    }
  }

  /** Joining parts that satisfy `ok` with a separator that satisfies `ok` keeps `ok`. */
  lemma {:induction false} JoinAll(parts: seq<string>, sep: string, ok: char -> bool)
    requires forall w :: w in parts ==> All(w, ok)
    requires All(sep, ok)
    ensures All(Join(parts, sep), ok)
  {
    if |parts| > 1 {
      assert parts[0] in parts;
      JoinAll(parts[1..], sep, ok);
      AllConcat(parts[0], sep, ok);
      AllConcat(parts[0] + sep, Join(parts[1..], sep), ok);
    } else if |parts| == 1 {
      assert parts[0] in parts;
    }
  }

  /** Joining the words of `s` with a non-whitespace separator leaves no whitespace. */
  lemma JoinSplitNoSpace(s: string, sep: string)
    requires All(sep, NotSpace)
    ensures All(Join(Split(s), sep), NotSpace)
  {
    SplitWords(s);
    JoinAll(Split(s), sep, NotSpace);
  }

  /** The words laid end to end. */
  function Concat(words: seq<string>): string
  {
    if words == [] then [] else words[0] + Concat(words[1..])
  }

  /** `s` with every whitespace character dropped. */
  function RemoveSpaces(s: string): (r: string)
    ensures All(r, NotSpace)
  {
    if s == [] then []
    else if IsSpace(s[0]) then RemoveSpaces(s[1..])
    else AllConcat([s[0]], RemoveSpaces(s[1..]), NotSpace); [s[0]] + RemoveSpaces(s[1..])
  }

  lemma {:induction false} RemoveSpacesConcat(a: string, b: string)
    ensures RemoveSpaces(a + b) == RemoveSpaces(a) + RemoveSpaces(b)
    decreases |a|
  {
    if a != [] {
      assert (a + b)[1..] == a[1..] + b;
      RemoveSpacesConcat(a[1..], b);
    } else {
      assert a + b == b;
    }
  }

  lemma {:induction false} RemoveSpacesOf(s: string, ok: bool)
    requires ok ==> All(s, NotSpace)
    requires !ok ==> All(s, IsSpace)
    ensures RemoveSpaces(s) == if ok then s else []
    decreases |s|
  {
    if s != [] {
      if ok { AllSlice(s, 1, |s|, NotSpace); } else { AllSlice(s, 1, |s|, IsSpace); }
      RemoveSpacesOf(s[1..], ok);
    }
  }

  /**
   * Splitting keeps every non-whitespace character, in order: the words laid end to end
   * are `s` with its whitespace removed.
   */
  lemma {:induction false} SplitKeepsText(s: string)
    ensures Concat(Split(s)) == RemoveSpaces(s)
    decreases |s|
  {
    var k := SpaceRun(s);
    SpacesDropped(s);
    if k < |s| {
      var rest := s[k..];
      var n := WordRun(rest);
      WordKept(rest);
      SplitKeepsText(rest[n..]);
      assert Split(s) == [rest[..n]] + Split(rest[n..]);
      assert ([rest[..n]] + Split(rest[n..]))[1..] == Split(rest[n..]);
    }
  }

  /** The whitespace `split()` skips first contributes nothing to `RemoveSpaces`. */
  lemma SpacesDropped(s: string)
    ensures RemoveSpaces(s) == RemoveSpaces(s[SpaceRun(s)..])
  {
    var k := SpaceRun(s);
    assert s == s[..k] + s[k..];
    assert All(s[..k], IsSpace);
    RemoveSpacesOf(s[..k], false);
    RemoveSpacesConcat(s[..k], s[k..]);
  }

  /** The word `split()` takes next is kept whole by `RemoveSpaces`. */
  lemma WordKept(r: string)
    ensures RemoveSpaces(r) == r[..WordRun(r)] + RemoveSpaces(r[WordRun(r)..])
  {
    var n := WordRun(r);
    assert r == r[..n] + r[n..];
    assert All(r[..n], NotSpace);
    RemoveSpacesOf(r[..n], true);
    RemoveSpacesConcat(r[..n], r[n..]);
  }

  // ---------------------------------------------------------------------------
  // Decimal numerals

  predicate IsDigit(c: char)
  {
    '0' <= c <= '9'
  }

  function DigitChar(d: nat): char
    requires d < 10
  {
    ('0' as int + d) as char
  }

  /** `str(n)` for a natural number: its decimal digits, no leading zeros. */
  function Decimal(n: nat): (r: string)
    ensures |r| > 0 && All(r, IsDigit)
  {
    if n < 10 then [DigitChar(n)]
    else
      var r := Decimal(n / 10) + [DigitChar(n % 10)];
      AllConcat(Decimal(n / 10), [DigitChar(n % 10)], IsDigit);
      r
  }

  /** The number a string of decimal digits denotes (Python's `int(s)` on such a string). */
  function DecimalValue(s: string): nat
    requires All(s, IsDigit)
  {
    if s == [] then 0
    else
      AllSlice(s, 0, |s| - 1, IsDigit);
      assert s[0..|s| - 1] == s[..|s| - 1];
      DecimalValue(s[..|s| - 1]) * 10 + (s[|s| - 1] as int - '0' as int)
  }

  /** Reading back the numeral of `n` gives `n`. */
  lemma {:induction false} DecimalRoundTrip(n: nat)
    ensures DecimalValue(Decimal(n)) == n
  {
    if n >= 10 {
      var r := Decimal(n);
      assert r[..|r| - 1] == Decimal(n / 10);
      DecimalRoundTrip(n / 10);
    }
  }

  /** Distinct numbers have distinct numerals. */
  lemma DecimalInjective(m: nat, n: nat)
    requires Decimal(m) == Decimal(n)
    ensures m == n
  {
    DecimalRoundTrip(m);
    DecimalRoundTrip(n);
  }
}
