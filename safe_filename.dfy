/**
 * `make_safe_filename`: replace the characters a file system may refuse, turn every run of
 * whitespace into one underscore (dropping it at both ends) and keep at most 100
 * characters. Underscores already in the name are kept as they are.
 */
module SafeFilename {
  import opened Text

  /** The characters replaced by `_`, in the order they are replaced. */
  const UnsafeChars: string := "<>:\"/\\|?*"

  /** The longest name produced. */
  const MaxLength: nat := 100

  predicate NotUnsafe(c: char)
  {
    c !in UnsafeChars
  }

  /** A name `make_safe_filename` leaves alone: nothing unsafe, no whitespace, short enough. */
  predicate IsSafe(s: string)
  {
    All(s, NotUnsafe) && All(s, NotSpace) && |s| <= MaxLength
  }

  /** `s` with every character of `chars` replaced by `_`. */
  function ReplaceAll(s: string, chars: string): (r: string)
    ensures |r| == |s|
    ensures forall i :: 0 <= i < |s| ==> r[i] == if s[i] in chars then '_' else s[i]
  {
    seq(|s|, i requires 0 <= i < |s| => if s[i] in chars then '_' else s[i])
  }

  /** Python's slice `s[:n]`. */
  function Prefix(s: string, n: nat): string
  {
    if |s| <= n then s else s[..n]
  }

  /** What `make_safe_filename` returns, stated as one expression. */
  function SafeName(s: string): string
  {
    Prefix(Join(Split(ReplaceAll(s, UnsafeChars)), "_"), MaxLength)
  }

  /**
   * `make_safe_filename`: one pass per unsafe character, each replacing that character
   * everywhere; then the whitespace collapse and the truncation.
   */
  method MakeSafeFilename(filename: string) returns (safe: string)
    ensures safe == SafeName(filename)
    ensures IsSafe(safe)
  {
    safe := filename;
    for i := 0 to |UnsafeChars|
      invariant safe == ReplaceAll(filename, UnsafeChars[..i])
    {
      assert UnsafeChars[..i + 1] == UnsafeChars[..i] + [UnsafeChars[i]];
      safe := ReplaceChar(safe, UnsafeChars[i], '_');
    }
    assert UnsafeChars[..|UnsafeChars|] == UnsafeChars;
    safe := Join(Split(safe), "_");
    if |safe| > MaxLength {
      safe := safe[..MaxLength];
    }
    SafeNameIsSafe(filename);
  }

  /** Each word `split()` returns is a piece of the input, so it keeps any property of all its characters. */
  lemma {:induction false} SplitWordsAll(s: string, ok: char -> bool)
    requires All(s, ok)
    ensures forall w :: w in Split(s) ==> All(w, ok)
    decreases |s|
  {
    var k := SpaceRun(s);
    if k < |s| {
      var rest := s[k..];
      AllSlice(s, k, |s|, ok);
      var n := WordRun(rest);
      AllSlice(rest, 0, n, ok);
      assert rest[0..n] == rest[..n];
      AllSlice(rest, n, |rest|, ok);
      assert rest[n..|rest|] == rest[n..];
      SplitWordsAll(rest[n..], ok);
    }
  }

  /** The output has no unsafe character, no whitespace, and at most 100 characters. */
  lemma SafeNameIsSafe(s: string)
    ensures IsSafe(SafeName(s))
  {
    var t := ReplaceAll(s, UnsafeChars);
    assert All(t, NotUnsafe);
    SplitWordsAll(t, NotUnsafe);
    SplitWords(t);
    JoinAll(Split(t), "_", NotUnsafe);
    JoinAll(Split(t), "_", NotSpace);
    var j := Join(Split(t), "_");
    if |j| > MaxLength {
      AllSlice(j, 0, MaxLength, NotUnsafe);
      AllSlice(j, 0, MaxLength, NotSpace);
      assert j[0..MaxLength] == j[..MaxLength];
    }
  }

  /** `make_safe_filename` leaves a name unchanged exactly when that name is already safe. */
  lemma SafeNameFixedPoint(s: string)
    ensures SafeName(s) == s <==> IsSafe(s)
  {
    SafeNameIsSafe(s);
    if IsSafe(s) {
      assert ReplaceAll(s, UnsafeChars) == s;
      if s == [] {
        SplitBlank(s);
      } else {
        SplitWord(s);
      }
    }
  }

  /** Applying `make_safe_filename` to its own output changes nothing. */
  lemma SafeNameIdempotent(s: string)
    ensures SafeName(SafeName(s)) == SafeName(s)
  {
    SafeNameIsSafe(s);
    SafeNameFixedPoint(SafeName(s));
  }

  /**
   * On a name of at most 100 characters without whitespace, every unsafe character turns
   * into `_` and every other character stays, position by position.
   */
  lemma SafeNameOfWord(s: string)
    requires All(s, NotSpace) && |s| <= MaxLength
    ensures |SafeName(s)| == |s|
    ensures forall i :: 0 <= i < |s| ==>
      SafeName(s)[i] == if s[i] in UnsafeChars then '_' else s[i]
  {
    var t := ReplaceAll(s, UnsafeChars);
    assert All(t, NotSpace);
    if t == [] {
      SplitBlank(t);
    } else {
      SplitWord(t);
    }
  }

  /**
   * Underscores are not merged: two adjacent unsafe characters leave two underscores next
   * to each other.
   */
  lemma UnderscoresKept()
    ensures SafeName("a<>b") == "a__b"
  {
    var s := "a<>b";
    UnderscoreExampleWord();
    SafeNameOfWord(s);
    var r := SafeName(s);
    assert s[0] !in UnsafeChars && s[1] in UnsafeChars && s[2] in UnsafeChars && s[3] !in UnsafeChars;
    assert r[0] == 'a' && r[1] == '_' && r[2] == '_' && r[3] == 'b';
  }

  lemma UnderscoreExampleWord()
    ensures All("a<>b", NotSpace)
  {
    var s := "a<>b";
    assert NotSpace(s[0]) && NotSpace(s[1]) && NotSpace(s[2]) && NotSpace(s[3]);
  }

  lemma SplitExample()
    ensures Split(" a  b ") == ["a", "b"]
  {
    var s := " a  b ";
    SplitExampleTail();
    SplitExampleRuns();
    assert s[1..] == "a  b ";
    assert s[1..][..1] == "a" && s[1..][1..] == "  b ";
  }

  lemma SplitExampleRuns()
    ensures SpaceRun(" a  b ") == 1 && WordRun("a  b ") == 1
  {
    assert IsSpace(' ') && !IsSpace('a');
    assert " a  b "[1..] == "a  b " && "a  b "[1..] == "  b ";
  }

  lemma SplitExampleTail()
    ensures Split("  b ") == ["b"]
  {
    var mid := "  b ";
    var tail := mid[2..];
    assert SpaceRun(mid) == 2 && tail == "b ";
    assert SpaceRun(tail) == 0 && WordRun(tail) == 1;
    assert tail[0..] == tail && tail[..1] == "b" && tail[1..] == " ";
    SplitBlank(" ");
  }

  lemma NothingUnsafeExample()
    ensures ReplaceAll(" a  b ", UnsafeChars) == " a  b "
  {
    var s := " a  b ";
    assert ' ' !in UnsafeChars && 'a' !in UnsafeChars && 'b' !in UnsafeChars;
  }

  lemma JoinExample()
    ensures Join(["a", "b"], "_") == "a_b"
  {
    assert ["a", "b"][1..] == ["b"];
  }

  /** Runs of whitespace, leading and trailing whitespace included, become single underscores. */
  lemma WhitespaceCollapsed()
    ensures SafeName(" a  b ") == "a_b"
  {
    NothingUnsafeExample();
    SplitExample();
    JoinExample();
  }
}
