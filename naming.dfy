/**
 * The output path of `save_pdf_attachment`: the configured parts joined with underscores,
 * placed in the download folder, then moved aside to `name_(1).pdf`, `name_(2).pdf`, ...
 * while the path is taken.
 */
module Naming {
  import opened Text
  import opened Paths
  import opened Config
  import opened Banks
  import opened SafeFilename
  import opened StatementDate

  /**
   * The parts `name_parts` collects: the bank tag, the statement date and the timestamp
   * when each is enabled, in that order, and always the sanitised file name last.
   */
  function NameParts(naming: FileNaming, bank: string, date: string, stamp: string, safe: string): seq<string>
  {
    (if naming.includeBankName then [bank] else []) +
    (if naming.includeStatementDate then [date] else []) +
    (if naming.includeTimestamp then [stamp] else []) +
    [safe]
  }

  /** `'_'.join(name_parts)`. */
  function FinalName(naming: FileNaming, bank: string, date: string, stamp: string, safe: string): string
  {
    Join(NameParts(naming, bank, date, stamp, safe), "_")
  }

  /** The `name_parts` appends of `save_pdf_attachment`, then the join. */
  method ComposeName(naming: FileNaming, bank: string, date: string, stamp: string, safe: string)
    returns (name: string)
    ensures name == FinalName(naming, bank, date, stamp, safe)
  {
    var parts: seq<string> := [];
    if naming.includeBankName {
      parts := parts + [bank];
    }
    if naming.includeStatementDate {
      parts := parts + [date];
    }
    if naming.includeTimestamp {
      parts := parts + [stamp];
    }
    parts := parts + [safe];
    assert parts == NameParts(naming, bank, date, stamp, safe);
    name := Join(parts, "_");
  }

  lemma JoinFront(present: bool, part: string, rest: seq<string>)
    requires |rest| > 0
    ensures Join((if present then [part] else []) + rest, "_") ==
      (if present then part + "_" else []) + Join(rest, "_")
  {
    if present {
      assert ([part] + rest)[1..] == rest;
    } else {
      assert [] + rest == rest;
    }
  }

  /**
   * The composed name spelled out: each enabled part followed by an underscore, then the
   * sanitised file name, which therefore always ends the name.
   */
  lemma FinalNameSpelledOut(naming: FileNaming, bank: string, date: string, stamp: string, safe: string)
    ensures FinalName(naming, bank, date, stamp, safe) ==
      (if naming.includeBankName then bank + "_" else []) +
      (if naming.includeStatementDate then date + "_" else []) +
      (if naming.includeTimestamp then stamp + "_" else []) +
      safe
  {
    var b: seq<string> := if naming.includeBankName then [bank] else [];
    var d: seq<string> := if naming.includeStatementDate then [date] else [];
    var t: seq<string> := if naming.includeTimestamp then [stamp] else [];
    assert NameParts(naming, bank, date, stamp, safe) == b + (d + (t + [safe]));
    JoinFront(naming.includeTimestamp, stamp, [safe]);
    JoinFront(naming.includeStatementDate, date, t + [safe]);
    JoinFront(naming.includeBankName, bank, d + (t + [safe]));
  }

  /** With every part enabled, as by default: bank, date, timestamp and file name. */
  lemma DefaultNameLayout(bank: string, date: string, stamp: string, safe: string)
    ensures FinalName(DefaultFileNaming, bank, date, stamp, safe) ==
      bank + "_" + date + "_" + stamp + "_" + safe
  {
    FinalNameSpelledOut(DefaultFileNaming, bank, date, stamp, safe);
  }

  // ---------------------------------------------------------------------------
  // The name of a saved attachment

  /**
   * The name `save_pdf_attachment` composes for an attachment: the statement date goes in
   * exactly as matched. It has a `/` exactly when an enabled date or timestamp has one.
   */
  function OutputNameAsWritten(naming: FileNaming, sender: string, subject: string, filename: string,
                               yearMonth: string, stamp: string): (name: string)
    ensures All(name, NoSlash) <==>
      (naming.includeStatementDate ==> All(ExtractStatementDate(subject, filename, yearMonth), NoSlash)) &&
      (naming.includeTimestamp ==> All(stamp, NoSlash))
  {
    var bank := IdentifyBank(sender, subject);
    TagHasNoSlash(bank);
    SafeHasNoSlash(filename);
    NameSlashFree(naming, Tag(bank), ExtractStatementDate(subject, filename, yearMonth), stamp,
                  SafeName(filename));
    FinalName(naming, Tag(bank), ExtractStatementDate(subject, filename, yearMonth), stamp, SafeName(filename))
  }

  /**
   * The name with the statement date passed through `make_safe_filename` like the
   * attachment's own name. It differs from the name as composed only when the date is not
   * already safe.
   */
  function OutputName(naming: FileNaming, sender: string, subject: string, filename: string,
                      yearMonth: string, stamp: string): (name: string)
    ensures IsSafe(ExtractStatementDate(subject, filename, yearMonth)) ==>
      name == OutputNameAsWritten(naming, sender, subject, filename, yearMonth, stamp)
  {
    SafeNameFixedPoint(ExtractStatementDate(subject, filename, yearMonth));
    FinalName(naming, Tag(IdentifyBank(sender, subject)),
              SafeName(ExtractStatementDate(subject, filename, yearMonth)), stamp, SafeName(filename))
  }

  predicate NoSlash(c: char)
  {
    c != '/'
  }

  /**
   * A date matched with `/` separators puts `/` into the name as written, so joined under
   * the download folder the name is no longer the last component of the path: the file
   * would go to a sub-directory nobody created.
   */
  lemma SlashDateLeavesFolder(folder: string, sender: string, filename: string, yearMonth: string,
                              stamp: string)
    ensures var name := OutputNameAsWritten(DefaultFileNaming, sender, "15/08/2024", filename,
                                            yearMonth, stamp);
      '/' in name && Basename(JoinPath(folder, name)) != name
  {
    var name := OutputNameAsWritten(DefaultFileNaming, sender, "15/08/2024", filename, yearMonth, stamp);
    var tag := Tag(IdentifyBank(sender, "15/08/2024"));
    SlashDateExtracted(filename, yearMonth);
    DefaultNameLayout(tag, "15/08/2024", stamp, SafeName(filename));
    assert name[|tag| + 3] == '/';
  }

  lemma TagHasNoSlash(b: Bank)
    ensures All(Tag(b), NoSlash)
  {
  }

  lemma SafeHasNoSlash(s: string)
    ensures All(SafeName(s), NoSlash)
  {
    SafeNameIsSafe(s);
    var r := SafeName(s);
    forall i | 0 <= i < |r| ensures NoSlash(r[i]) {
      assert NotUnsafe(r[i]);
      assert UnsafeChars[4] == '/';
    }
  }

  /**
   * With a bank tag and a file name free of `/`, the composed name has a `/` exactly when
   * an enabled date or timestamp has one.
   */
  lemma NameSlashFree(naming: FileNaming, bank: string, date: string, stamp: string, safe: string)
    requires All(bank, NoSlash) && All(safe, NoSlash)
    ensures All(FinalName(naming, bank, date, stamp, safe), NoSlash) <==>
      (naming.includeStatementDate ==> All(date, NoSlash)) && (naming.includeTimestamp ==> All(stamp, NoSlash))
  {
    var parts := NameParts(naming, bank, date, stamp, safe);
    if (naming.includeStatementDate ==> All(date, NoSlash)) && (naming.includeTimestamp ==> All(stamp, NoSlash)) {
      assert forall w :: w in parts ==>
        (w == bank || (w == date && naming.includeStatementDate) ||
         (w == stamp && naming.includeTimestamp) || w == safe);
      JoinAll(parts, "_", NoSlash);
    }
    if All(FinalName(naming, bank, date, stamp, safe), NoSlash) {
      FinalNameSpelledOut(naming, bank, date, stamp, safe);
      var b: string := if naming.includeBankName then bank + "_" else [];
      var d: string := if naming.includeStatementDate then date + "_" else [];
      var t: string := if naming.includeTimestamp then stamp + "_" else [];
      AllSplit(b + d + t, safe, NoSlash);
      AllSplit(b + d, t, NoSlash);
      AllSplit(b, d, NoSlash);
      if naming.includeStatementDate {
        AllSplit(date, "_", NoSlash);
      }
      if naming.includeTimestamp {
        AllSplit(stamp, "_", NoSlash);
      }
    }
  }

  /**
   * With the date sanitised, and a timestamp without `/` (the `%Y%m%d_%H%M%S` format has
   * none), the name has no `/` and stays the last component of the path under any folder.
   */
  lemma OutputNameStaysInFolder(folder: string, naming: FileNaming, sender: string, subject: string,
                                filename: string, yearMonth: string, stamp: string)
    requires All(stamp, NoSlash)
    ensures All(OutputName(naming, sender, subject, filename, yearMonth, stamp), NoSlash)
    ensures var name := OutputName(naming, sender, subject, filename, yearMonth, stamp);
      Basename(JoinPath(folder, name)) == name
  {
    var bank := IdentifyBank(sender, subject);
    var date := ExtractStatementDate(subject, filename, yearMonth);
    TagHasNoSlash(bank);
    SafeHasNoSlash(date);
    SafeHasNoSlash(filename);
    NameStaysInFolder(folder, naming, Tag(bank), SafeName(date), stamp, SafeName(filename));
  }

  /** Parts without `/` give a name without `/`, which is the last component of its path. */
  lemma NameStaysInFolder(folder: string, naming: FileNaming, bank: string, date: string, stamp: string,
                          safe: string)
    requires All(bank, NoSlash) && All(date, NoSlash) && All(stamp, NoSlash) && All(safe, NoSlash)
    ensures All(FinalName(naming, bank, date, stamp, safe), NoSlash)
    ensures Basename(JoinPath(folder, FinalName(naming, bank, date, stamp, safe))) ==
      FinalName(naming, bank, date, stamp, safe)
  {
    var parts := NameParts(naming, bank, date, stamp, safe);
    assert forall w :: w in parts ==> w == bank || w == date || w == stamp || w == safe;
    JoinAll(parts, "_", NoSlash);
    BasenameOfJoin(folder, FinalName(naming, bank, date, stamp, safe));
  }

  // ---------------------------------------------------------------------------
  // Avoiding existing files

  /**
   * The path tried after `k` collisions: the composed path itself, then
   * `name_(k)ext` with `name` and `ext` always split off the composed path.
   */
  function Attempt(original: string, k: nat): string
  {
    if k == 0 then original
    else
      var (root, ext) := SplitExt(original);
      root + "_(" + Decimal(k) + ")" + ext
  }

  /** Moving a name without `/` aside keeps it free of `/`. */
  lemma AttemptNoSlash(name: string, n: nat)
    requires All(name, NoSlash)
    ensures All(Attempt(name, n), NoSlash)
  {
    if n > 0 {
      var (root, ext) := SplitExt(name);
      AllSplit(root, ext, NoSlash);
      var d := Decimal(n);
      assert All(d, NoSlash) by {
        forall i | 0 <= i < |d| ensures NoSlash(d[i]) {
          assert IsDigit(d[i]);
        }
      }
      AllConcat(root, "_(", NoSlash);
      AllConcat(root + "_(", d, NoSlash);
      AllConcat(root + "_(" + d, ")", NoSlash);
      AllConcat(root + "_(" + d + ")", ext, NoSlash);
    }
  }

  /**
   * Under the download folder, the candidate paths are the folder joined with the
   * candidates of the name: a counter never lands outside the folder.
   */
  lemma AttemptInFolder(folder: string, name: string, n: nat)
    requires All(name, NoSlash)
    ensures All(Attempt(name, n), NoSlash)
    ensures Attempt(JoinPath(folder, name), n) == JoinPath(folder, Attempt(name, n))
  {
    AttemptNoSlash(name, n);
    var moved := Attempt(name, n);
    assert forall k :: 0 <= k < |name| ==> name[k] != '/' by {
      forall k | 0 <= k < |name| ensures name[k] != '/' { assert NoSlash(name[k]); }
    }
    assert forall k :: 0 <= k < |moved| ==> moved[k] != '/' by {
      forall k | 0 <= k < |moved| ensures moved[k] != '/' { assert NoSlash(moved[k]); }
    }
    JoinRelative(folder, name);
    JoinRelative(folder, moved);
    if n > 0 {
      MovedUnder(DirPrefix(folder), name, n);
    }
  }

  lemma MovedUnder(head: string, name: string, n: nat)
    requires head == [] || head[|head| - 1] == '/'
    requires forall k :: 0 <= k < |name| ==> name[k] != '/'
    requires n > 0
    ensures Attempt(head + name, n) == head + Attempt(name, n)
  {
    var mid := "_(" + Decimal(n) + ")";
    SplitExtUnder(head, name);
    MovedForm(head + name, n, mid);
    MovedForm(name, n, mid);
    PrefixKept(head, SplitExt(name).0, mid, SplitExt(name).1);
  }

  /** The candidate after `n > 0` collisions: root, the counter in `_(...)`, extension. */
  lemma MovedForm(original: string, n: nat, mid: string)
    requires n > 0 && mid == "_(" + Decimal(n) + ")"
    ensures Attempt(original, n) == SplitExt(original).0 + mid + SplitExt(original).1
  {
  }

  lemma PrefixKept(head: string, root: string, mid: string, ext: string)
    ensures (head + root) + mid + ext == head + (root + mid + ext)
  {
  }

  /** Distinct counters give distinct paths, so the loop never tries a path twice. */
  lemma AttemptInjective(original: string, j: nat, k: nat)
    ensures Attempt(original, j) == Attempt(original, k) ==> j == k
  {
    if j > 0 && k > 0 && Attempt(original, j) == Attempt(original, k) {
      var (root, ext) := SplitExt(original);
      CounterEqual(root, Decimal(j), Decimal(k), ext);
      DecimalInjective(j, k);
    }
  }

  /** The counter is read back from a moved-aside name: the text between `_(` and `)`. */
  lemma CounterEqual(root: string, x: string, y: string, ext: string)
    requires root + "_(" + x + ")" + ext == root + "_(" + y + ")" + ext
    ensures x == y
  {
    var a := root + "_(" + x + ")" + ext;
    assert |x| == |y|;
    assert a[|root| + 2..|root| + 2 + |x|] == x;
    assert (root + "_(" + y + ")" + ext)[|root| + 2..|root| + 2 + |y|] == y;
  }

  /** A list of distinct paths, all in a set, is no longer than the set. */
  lemma {:induction false} DistinctWithin(xs: seq<string>, s: set<string>)
    requires forall i :: 0 <= i < |xs| ==> xs[i] in s
    requires forall i, j :: 0 <= i < j < |xs| ==> xs[i] != xs[j]
    ensures |xs| <= |s|
  {
    if xs != [] {
      var last := xs[|xs| - 1];
      DistinctWithin(xs[..|xs| - 1], s - {last});
    }
  }

  /** `path` is the first attempt, in counter order, that is not among the existing paths. */
  ghost predicate FirstFree(original: string, existing: set<string>, path: string)
  {
    path !in existing &&
    exists n: nat :: path == Attempt(original, n) &&
      forall m :: 0 <= m < n ==> Attempt(original, m) in existing
  }

  /** At most one path is the first free one. */
  lemma FirstFreeUnique(original: string, existing: set<string>, p: string, q: string)
    requires FirstFree(original, existing, p) && FirstFree(original, existing, q)
    ensures p == q
  {
    var n: nat :| p == Attempt(original, n) &&
      forall m :: 0 <= m < n ==> Attempt(original, m) in existing;
    var k: nat :| q == Attempt(original, k) &&
      forall m :: 0 <= m < k ==> Attempt(original, m) in existing;
    assert !(n < k) && !(k < n);
  }

  /**
   * The de-duplication loop of `save_pdf_attachment`: keep the composed path when it is
   * free, otherwise try `name_(1)ext`, `name_(2)ext`, ... until one is free.
   */
  method DedupPath(original: string, existing: set<string>) returns (path: string)
    ensures FirstFree(original, existing, path)
    ensures original !in existing ==> path == original
  {
    path := original;
    var counter := 1;
    ghost var tried: seq<string> := [];
    while path in existing
      invariant counter >= 1 && |tried| == counter - 1
      invariant path == Attempt(original, counter - 1)
      invariant forall i :: 0 <= i < |tried| ==> tried[i] == Attempt(original, i) && tried[i] in existing
      decreases |existing| - |tried|
    {
      ghost var seen := tried + [path];
      forall i, j | 0 <= i < j < |seen| ensures seen[i] != seen[j] {
        AttemptInjective(original, i, j);
      }
      DistinctWithin(seen, existing);
      var (name, ext) := SplitExt(original);
      path := name + "_(" + Decimal(counter) + ")" + ext;
      counter := counter + 1;
      tried := seen;
    }
    forall m | 0 <= m < counter - 1 ensures Attempt(original, m) in existing {
      assert tried[m] == Attempt(original, m);
    }
  }
}
