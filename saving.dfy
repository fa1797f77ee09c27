/**
 * `save_pdf_attachment` and `extract_pdf_attachments`: every PDF attachment of every
 * fetched message that passes the size gate, and whose composed name has no `/`, is written
 * under a fresh path and described by a record. The file system is the set of paths that exist; writing a file adds its path.
 */
module Saving {
  import opened Wrappers
  import opened Text
  import opened Paths
  import opened Config
  import opened Banks
  import opened SafeFilename
  import opened StatementDate
  import opened Attachments
  import opened Naming

  /**
   * The clock readings of one run: `%Y%m` for the statement-date fallback,
   * `%Y%m%d_%H%M%S` for file names and the ISO time stamped on each record.
   */
  datatype Clock = Clock(yearMonth: string, stamp: string, iso: string)

  /** The record `save_pdf_attachment` returns for a saved file. */
  datatype FileInfo = FileInfo(
    filename: string,
    filePath: string,
    bank: Bank,
    subject: string,
    sender: string,
    date: string,
    size: nat,
    statementDate: string,
    downloadTimestamp: string,
    originalFilename: string)

  /** Where the attachment goes before any collision: its composed name joined under the download folder. */
  function TargetPath(config: Config, sender: string, subject: string, filename: string, clock: Clock): string
  {
    JoinPath(config.downloadFolder,
             OutputNameAsWritten(config.fileNaming, sender, subject, filename, clock.yearMonth, clock.stamp))
  }

  /** The composed name has no `/`, so the file can be opened directly in the download folder. */
  predicate Openable(config: Config, sender: string, subject: string, filename: string, clock: Clock)
  {
    All(OutputNameAsWritten(config.fileNaming, sender, subject, filename, clock.yearMonth, clock.stamp), NoSlash)
  }

  /** `info` records the attachment `part` of the message with these headers. */
  predicate Describes(info: FileInfo, config: Config, clock: Clock,
                      subject: string, sender: string, date: string, part: Part)
  {
    && part.filename == Some(info.originalFilename)
    && part.payload.Some? && info.size == |part.payload.value|
    && info.filename == Basename(info.filePath)
    && info.bank == IdentifyBank(sender, subject)
    && info.subject == subject && info.sender == sender && info.date == date
    && info.statementDate == ExtractStatementDate(subject, info.originalFilename, clock.yearMonth)
    && info.downloadTimestamp == clock.iso
  }

  /**
   * `save_pdf_attachment`: nothing when the size gate drops the part, and nothing when the
   * composed name holds a `/` (the text before it names a sub-folder that was never
   * created, so `open` raises and the handler returns `None`); otherwise the record of a
   * file written at the first free path derived from the composed name, directly in the
   * download folder under the recorded file name.
   */
  method SavePdfAttachment(config: Config, part: Part, subject: string, sender: string, date: string,
                           clock: Clock, existing: set<string>)
    returns (info: Option<FileInfo>)
    ensures info.Some? <==>
      SizeGate(part, config.filters).Success? && Openable(config, sender, subject, part.filename.value, clock)
    ensures info.Some? ==> Describes(info.value, config, clock, subject, sender, date, part)
    ensures info.Some? ==>
      FirstFree(TargetPath(config, sender, subject, part.filename.value, clock), existing, info.value.filePath)
    ensures info.Some? ==> info.value.filePath == JoinPath(config.downloadFolder, info.value.filename)
  {
    var gate := SizeGate(part, config.filters);
    if gate.Failure? {
      return None;
    }
    var filename := part.filename.value;
    var safeFilename := MakeSafeFilename(filename);
    var bank := IdentifyBank(sender, subject);
    var statementDate := ExtractStatementDate(subject, filename, clock.yearMonth);
    var finalName := ComposeName(config.fileNaming, Tag(bank), statementDate, clock.stamp, safeFilename);
    var filePath := JoinPath(config.downloadFolder, finalName);
    filePath := DedupPath(filePath, existing);
    if '/' in finalName {
      return None;
    }
    SavedInFolder(config, sender, subject, filename, clock, existing, filePath);
    info := Some(FileInfo(Basename(filePath), filePath, bank, subject, sender, date, gate.value,
                          statementDate, clock.iso, filename));
  }

  /**
   * A file saved under a name without `/` lies directly in the download folder: its path is
   * the folder joined with its base name, which is the composed name, or the composed name
   * moved aside to `name_(n)ext`, and is the composed name itself when that path was free.
   */
  lemma SavedInFolder(config: Config, sender: string, subject: string, filename: string, clock: Clock,
                      existing: set<string>, path: string)
    requires Openable(config, sender, subject, filename, clock)
    requires FirstFree(TargetPath(config, sender, subject, filename, clock), existing, path)
    ensures path == JoinPath(config.downloadFolder, Basename(path))
    ensures exists n: nat ::
      Basename(path) == Attempt(OutputNameAsWritten(config.fileNaming, sender, subject, filename, clock.yearMonth, clock.stamp), n)
    ensures TargetPath(config, sender, subject, filename, clock) !in existing ==>
      Basename(path) == OutputNameAsWritten(config.fileNaming, sender, subject, filename, clock.yearMonth, clock.stamp)
  {
    var name := OutputNameAsWritten(config.fileNaming, sender, subject, filename, clock.yearMonth, clock.stamp);
    var target := TargetPath(config, sender, subject, filename, clock);
    var n: nat :| path == Attempt(target, n) &&
      forall m :: 0 <= m < n ==> Attempt(target, m) in existing;
    AttemptInFolder(config.downloadFolder, name, n);
    var moved := Attempt(name, n);
    assert forall k :: 0 <= k < |moved| ==> moved[k] != '/' by {
      forall k | 0 <= k < |moved| ensures moved[k] != '/' { assert NoSlash(moved[k]); }
    }
    BasenameOfJoin(config.downloadFolder, moved);
    if target !in existing {
      assert Attempt(target, 0) == target;
      assert n == 0;
    }
  }

  // ---------------------------------------------------------------------------
  // All messages of a run

  /**
   * A fetched message: its decoded headers, whether it is multipart, and the parts
   * `walk()` visits, in order.
   */
  datatype Message = Message(subject: string, sender: string, date: string, multipart: bool, parts: seq<Part>)

  /**
   * With the default naming, an attachment of a message whose subject is `15/08/2024` gets a
   * name holding `/`, so `save_pdf_attachment` returns no record for it and writes nothing.
   */
  lemma SlashDateDropped(config: Config, sender: string, filename: string, clock: Clock)
    requires config.fileNaming == DefaultFileNaming
    ensures !Openable(config, sender, "15/08/2024", filename, clock)
  {
    var name := OutputNameAsWritten(DefaultFileNaming, sender, "15/08/2024", filename, clock.yearMonth, clock.stamp);
    SlashDateLeavesFolder(config.downloadFolder, sender, filename, clock.yearMonth, clock.stamp);
    var k :| 0 <= k < |name| && name[k] == '/';
    assert !NoSlash(name[k]);
  }

  /**
   * A part is saved when it is a PDF attachment, passes the size gate and gets a name
   * without `/`.
   */
  predicate Kept(config: Config, clock: Clock, m: Message, part: Part)
  {
    && IsPdfAttachment(part)
    && SizeGate(part, config.filters).Success?
    && Openable(config, m.sender, m.subject, part.filename.value, clock)
  }

  /** The parts of `m` among `parts` that are saved, each with its message, in walk order. */
  function KeptParts(config: Config, clock: Clock, m: Message, parts: seq<Part>): seq<(Message, Part)>
  {
    if parts == [] then []
    else
      var last := parts[|parts| - 1];
      KeptParts(config, clock, m, parts[..|parts| - 1]) + (if Kept(config, clock, m, last) then [(m, last)] else [])
  }

  /**
   * Every saved part of the run, message by message. A message whose fetch failed (`None`)
   * or that is not multipart contributes nothing.
   */
  function KeptAll(config: Config, clock: Clock, messages: seq<Option<Message>>): seq<(Message, Part)>
  {
    if messages == [] then []
    else
      var last := messages[|messages| - 1];
      KeptAll(config, clock, messages[..|messages| - 1]) +
      (if last.Some? && last.value.multipart then KeptParts(config, clock, last.value, last.value.parts) else [])
  }

  /**
   * `info` records the part `e.1` of message `e.0`, saved at the first free candidate of its
   * composed path while the paths in `taken` exist.
   */
  ghost predicate SavedRecord(info: FileInfo, config: Config, clock: Clock, taken: set<string>,
                              e: (Message, Part))
  {
    && Describes(info, config, clock, e.0.subject, e.0.sender, e.0.date, e.1)
    && FirstFree(TargetPath(config, e.0.sender, e.0.subject, info.originalFilename, clock), taken, info.filePath)
  }

  /**
   * The records describe the expected parts, one for one and in order, each saved at the
   * first free candidate while the paths that existed and those saved before it exist.
   */
  ghost predicate Records(pdfs: seq<FileInfo>, config: Config, clock: Clock, existing: set<string>,
                          expected: seq<(Message, Part)>)
  {
    |pdfs| == |expected| &&
    forall i :: 0 <= i < |pdfs| ==>
      SavedRecord(pdfs[i], config, clock, existing + PathsOf(pdfs[..i]), expected[i])
  }

  function PathsOf(pdfs: seq<FileInfo>): set<string>
  {
    set i | 0 <= i < |pdfs| :: pdfs[i].filePath
  }

  /**
   * The records name distinct paths, none of which existed before, and the file system
   * afterwards is what existed plus those paths.
   */
  predicate FreshFiles(pdfs: seq<FileInfo>, existing: set<string>, written: set<string>)
  {
    && (forall i :: 0 <= i < |pdfs| ==> pdfs[i].filePath !in existing)
    && (forall i, j :: 0 <= i < j < |pdfs| ==> pdfs[i].filePath != pdfs[j].filePath)
    && written == existing + PathsOf(pdfs)
  }

  lemma RecordsAppend(a: seq<FileInfo>, b: seq<FileInfo>, config: Config, clock: Clock, existing: set<string>,
                      ea: seq<(Message, Part)>, eb: seq<(Message, Part)>)
    requires Records(a, config, clock, existing, ea)
    requires Records(b, config, clock, existing + PathsOf(a), eb)
    ensures Records(a + b, config, clock, existing, ea + eb)
  {
    forall i | 0 <= i < |a + b|
      ensures SavedRecord((a + b)[i], config, clock, existing + PathsOf((a + b)[..i]), (ea + eb)[i])
    {
      if i >= |a| {
        RecordFromRight(a, b, config, clock, existing, ea, eb, i);
      } else {
        RecordFromLeft(a, b, config, clock, existing, ea, eb, i);
      }
    }
  }

  lemma RecordFromLeft(a: seq<FileInfo>, b: seq<FileInfo>, config: Config, clock: Clock, existing: set<string>,
                       ea: seq<(Message, Part)>, eb: seq<(Message, Part)>, i: nat)
    requires Records(a, config, clock, existing, ea) && i < |a|
    ensures SavedRecord((a + b)[i], config, clock, existing + PathsOf((a + b)[..i]), (ea + eb)[i])
  {
    PrefixPathsLeft(a, b, existing, i);
    assert SavedRecord(a[i], config, clock, existing + PathsOf(a[..i]), ea[i]);
    assert (a + b)[i] == a[i] && (ea + eb)[i] == ea[i];
  }

  /** The paths before position `i` of `a + b`, for `i` inside `a`. */
  lemma PrefixPathsLeft(a: seq<FileInfo>, b: seq<FileInfo>, existing: set<string>, i: nat)
    requires i <= |a|
    ensures existing + PathsOf((a + b)[..i]) == existing + PathsOf(a[..i])
  {
    assert (a + b)[..i] == a[..i];
  }

  lemma RecordFromRight(a: seq<FileInfo>, b: seq<FileInfo>, config: Config, clock: Clock, existing: set<string>,
                        ea: seq<(Message, Part)>, eb: seq<(Message, Part)>, i: nat)
    requires |a| == |ea| && Records(b, config, clock, existing + PathsOf(a), eb) && |a| <= i < |a| + |b|
    ensures SavedRecord((a + b)[i], config, clock, existing + PathsOf((a + b)[..i]), (ea + eb)[i])
  {
    var j := i - |a|;
    PrefixPaths(a, b, existing, i);
    assert SavedRecord(b[j], config, clock, existing + PathsOf(a) + PathsOf(b[..j]), eb[j]);
    assert (a + b)[i] == b[j] && (ea + eb)[i] == eb[j];
  }

  /** The paths before position `i` of `a + b`, for `i` inside `b`. */
  lemma PrefixPaths(a: seq<FileInfo>, b: seq<FileInfo>, existing: set<string>, i: nat)
    requires |a| <= i <= |a| + |b|
    ensures existing + PathsOf((a + b)[..i]) == existing + PathsOf(a) + PathsOf(b[..i - |a|])
  {
    assert (a + b)[..i] == a + b[..i - |a|];
    PathsOfAppend(a, b[..i - |a|]);
  }

  lemma PathsOfAppend(a: seq<FileInfo>, b: seq<FileInfo>)
    ensures PathsOf(a + b) == PathsOf(a) + PathsOf(b)
  {
    forall p | p in PathsOf(a + b) ensures p in PathsOf(a) + PathsOf(b) {
      var i :| 0 <= i < |a + b| && (a + b)[i].filePath == p;
      if i >= |a| {
        assert (a + b)[i] == b[i - |a|];
      } else {
        assert (a + b)[i] == a[i];
      }
    }
    forall p | p in PathsOf(b) ensures p in PathsOf(a + b) {
      var i :| 0 <= i < |b| && b[i].filePath == p;
      assert (a + b)[|a| + i] == b[i];
    }
    forall p | p in PathsOf(a) ensures p in PathsOf(a + b) {
      var i :| 0 <= i < |a| && a[i].filePath == p;
      assert (a + b)[i] == a[i];
    }
  }

  lemma FreshFilesAppend(a: seq<FileInfo>, b: seq<FileInfo>, existing: set<string>, middle: set<string>,
                         written: set<string>)
    requires FreshFiles(a, existing, middle) && FreshFiles(b, middle, written)
    ensures FreshFiles(a + b, existing, written)
  {
    PathsOfAppend(a, b);
    forall i | 0 <= i < |a + b| ensures (a + b)[i].filePath !in existing {
      if i >= |a| {
        assert (a + b)[i] == b[i - |a|];
      } else {
        assert (a + b)[i] == a[i];
      }
    }
    forall i, j | 0 <= i < j < |a + b| ensures (a + b)[i].filePath != (a + b)[j].filePath {
      if j >= |a| && i < |a| {
        assert a[i].filePath in PathsOf(a);
        assert (a + b)[j] == b[j - |a|] && (a + b)[i] == a[i];
      } else if j >= |a| {
        assert (a + b)[j] == b[j - |a|] && (a + b)[i] == b[i - |a|];
      } else {
        assert (a + b)[j] == a[j] && (a + b)[i] == a[i];
      }
    }
  }

  /** One more saved attachment keeps the records in step and the paths fresh. */
  lemma AppendSaved(saved: seq<FileInfo>, info: FileInfo, config: Config, clock: Clock,
                    expected: seq<(Message, Part)>, m: Message, part: Part,
                    existing: set<string>, written: set<string>)
    requires Records(saved, config, clock, existing, expected) && FreshFiles(saved, existing, written)
    requires SavedRecord(info, config, clock, written, (m, part))
    ensures Records(saved + [info], config, clock, existing, expected + [(m, part)])
    ensures FreshFiles(saved + [info], existing, written + {info.filePath})
  {
    var one := [info];
    assert one[..0] == [];
    assert PathsOf(one[..0]) == {};
    assert Records(one, config, clock, written, [(m, part)]);
    assert PathsOf(one) == {info.filePath} by {
      assert one[0] == info;
    }
    RecordsAppend(saved, one, config, clock, existing, expected, [(m, part)]);
    FreshFilesAppend(saved, one, existing, written, written + {info.filePath});
  }

  /** The `for part in msg.walk()` loop of one multipart message. */
  method SaveMessageParts(config: Config, m: Message, clock: Clock, existing: set<string>)
    returns (saved: seq<FileInfo>, written: set<string>)
    ensures Records(saved, config, clock, existing, KeptParts(config, clock, m, m.parts))
    ensures FreshFiles(saved, existing, written)
  {
    saved := [];
    written := existing;
    for j := 0 to |m.parts|
      invariant Records(saved, config, clock, existing, KeptParts(config, clock, m, m.parts[..j]))
      invariant FreshFiles(saved, existing, written)
    {
      assert m.parts[..j + 1][..j] == m.parts[..j];
      var part := m.parts[j];
      if IsPdfAttachment(part) {
        var info := SavePdfAttachment(config, part, m.subject, m.sender, m.date, clock, written);
        if info.Some? {
          AppendSaved(saved, info.value, config, clock, KeptParts(config, clock, m, m.parts[..j]), m, part,
                      existing, written);
          saved := saved + [info.value];
          written := written + {info.value.filePath};
        }
      }
    }
    assert m.parts[..|m.parts|] == m.parts;
  }

  /**
   * `extract_pdf_attachments`: the records of every saved attachment of the run, in message
   * and walk order, each at the first free candidate of its composed path, at distinct paths
   * that did not exist before.
   */
  method ExtractPdfAttachments(config: Config, messages: seq<Option<Message>>, clock: Clock,
                               existing: set<string>)
    returns (pdfs: seq<FileInfo>, written: set<string>)
    ensures Records(pdfs, config, clock, existing, KeptAll(config, clock, messages))
    ensures FreshFiles(pdfs, existing, written)
  {
    pdfs := [];
    written := existing;
    for i := 0 to |messages|
      invariant Records(pdfs, config, clock, existing, KeptAll(config, clock, messages[..i]))
      invariant FreshFiles(pdfs, existing, written)
    {
      assert messages[..i + 1][..i] == messages[..i];
      var fetched := messages[i];
      if fetched.Some? && fetched.value.multipart {
        var saved, after := SaveMessageParts(config, fetched.value, clock, written);
        RecordsAppend(pdfs, saved, config, clock, existing, KeptAll(config, clock, messages[..i]),
                      KeptParts(config, clock, fetched.value, fetched.value.parts));
        FreshFilesAppend(pdfs, saved, existing, written, after);
        pdfs := pdfs + saved;
        written := after;
      } else {
        assert KeptAll(config, clock, messages[..i + 1]) == KeptAll(config, clock, messages[..i]) + [];
      }
    }
    assert messages[..|messages|] == messages;
  }
}
