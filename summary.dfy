/**
 * The figures of `save_summary_report`: how many files were downloaded, and per bank the
 * number of files, their total size and their names. Writing the JSON and CSV files is not
 * part of this model.
 */
module Summary {
  import opened Banks
  import opened Config
  import opened Saving

  /** One bank's entry of `bank_breakdown`. */
  datatype BankStats = BankStats(count: nat, totalSize: nat, files: seq<string>)

  const NoFiles: BankStats := BankStats(0, 0, [])

  /** `bank_breakdown` as the loop leaves it after the records `pdfs`, folded in order. */
  function Breakdown(pdfs: seq<FileInfo>): map<Bank, BankStats>
  {
    if pdfs == [] then map[]
    else
      var bd := Breakdown(pdfs[..|pdfs| - 1]);
      var pdf := pdfs[|pdfs| - 1];
      var entry := if pdf.bank in bd then bd[pdf.bank] else NoFiles;
      bd[pdf.bank := BankStats(entry.count + 1, entry.totalSize + pdf.size, entry.files + [pdf.filename])]
  }

  /** The loop of `save_summary_report` that fills `bank_breakdown`, one record at a time. */
  method BankBreakdown(pdfs: seq<FileInfo>) returns (bd: map<Bank, BankStats>)
    ensures bd == Breakdown(pdfs)
  {
    bd := map[];
    for i := 0 to |pdfs|
      invariant bd == Breakdown(pdfs[..i])
    {
      assert pdfs[..i + 1][..i] == pdfs[..i];
      var bank := pdfs[i].bank;
      if bank !in bd {
        bd := bd[bank := NoFiles];
      }
      bd := bd[bank := BankStats(bd[bank].count + 1, bd[bank].totalSize + pdfs[i].size,
                                 bd[bank].files + [pdfs[i].filename])];
    }
    assert pdfs[..|pdfs|] == pdfs;
  }

  // ---------------------------------------------------------------------------
  // What each entry means

  /** The records of one bank, in order. */
  function Of(pdfs: seq<FileInfo>, b: Bank): seq<FileInfo>
  {
    if pdfs == [] then []
    else Of(pdfs[..|pdfs| - 1], b) + (if pdfs[|pdfs| - 1].bank == b then [pdfs[|pdfs| - 1]] else [])
  }

  function SizeSum(pdfs: seq<FileInfo>): nat
  {
    if pdfs == [] then 0 else SizeSum(pdfs[..|pdfs| - 1]) + pdfs[|pdfs| - 1].size
  }

  function Names(pdfs: seq<FileInfo>): seq<string>
  {
    if pdfs == [] then [] else Names(pdfs[..|pdfs| - 1]) + [pdfs[|pdfs| - 1].filename]
  }

  /** A bank's entry, or the empty entry for a bank with no records. */
  function Entry(bd: map<Bank, BankStats>, b: Bank): BankStats
  {
    if b in bd then bd[b] else NoFiles
  }

  lemma SizeSumAppend(a: seq<FileInfo>, b: seq<FileInfo>)
    ensures SizeSum(a + b) == SizeSum(a) + SizeSum(b)
    decreases |b|
  {
    if b != [] {
      assert (a + b)[..|a + b| - 1] == a + b[..|b| - 1];
      SizeSumAppend(a, b[..|b| - 1]);
    } else {
      assert a + b == a;
    }
  }

  lemma NamesAppend(a: seq<FileInfo>, b: seq<FileInfo>)
    ensures Names(a + b) == Names(a) + Names(b)
    decreases |b|
  {
    if b != [] {
      assert (a + b)[..|a + b| - 1] == a + b[..|b| - 1];
      NamesAppend(a, b[..|b| - 1]);
    } else {
      assert a + b == a;
    }
  }

  /**
   * A bank has an entry exactly when some record carries it, and the entry holds the number
   * of its records, the sum of their sizes and their file names in input order.
   */
  lemma {:induction false} BreakdownEntry(pdfs: seq<FileInfo>, b: Bank)
    ensures b in Breakdown(pdfs) <==> |Of(pdfs, b)| > 0
    ensures Entry(Breakdown(pdfs), b) == BankStats(|Of(pdfs, b)|, SizeSum(Of(pdfs, b)), Names(Of(pdfs, b)))
  {
    if pdfs != [] {
      var init := pdfs[..|pdfs| - 1];
      BreakdownEntry(init, b);
      if pdfs[|pdfs| - 1].bank == b {
        BreakdownSameBank(pdfs, b);
      } else {
        BreakdownOtherBank(pdfs, b);
      }
    }
  }

  /** A record of bank `b` adds one file, its size and its name to `b`'s entry. */
  lemma BreakdownSameBank(pdfs: seq<FileInfo>, b: Bank)
    requires pdfs != [] && pdfs[|pdfs| - 1].bank == b
    ensures var init := pdfs[..|pdfs| - 1];
      var e := Entry(Breakdown(init), b);
      var pdf := pdfs[|pdfs| - 1];
      && b in Breakdown(pdfs)
      && Of(pdfs, b) == Of(init, b) + [pdf]
      && Entry(Breakdown(pdfs), b) == BankStats(e.count + 1, e.totalSize + pdf.size, e.files + [pdf.filename])
      && SizeSum(Of(pdfs, b)) == SizeSum(Of(init, b)) + pdf.size
      && Names(Of(pdfs, b)) == Names(Of(init, b)) + [pdf.filename]
  {
    var init := pdfs[..|pdfs| - 1];
    var pdf := pdfs[|pdfs| - 1];
    SizeSumAppend(Of(init, b), [pdf]);
    NamesAppend(Of(init, b), [pdf]);
    assert [pdf][..0] == [];
  }

  /** A record of another bank leaves `b`'s entry and records as they were. */
  lemma BreakdownOtherBank(pdfs: seq<FileInfo>, b: Bank)
    requires pdfs != [] && pdfs[|pdfs| - 1].bank != b
    ensures var init := pdfs[..|pdfs| - 1];
      && (b in Breakdown(pdfs) <==> b in Breakdown(init))
      && Of(pdfs, b) == Of(init, b)
      && Entry(Breakdown(pdfs), b) == Entry(Breakdown(init), b)
  {
    var init := pdfs[..|pdfs| - 1];
    assert Of(pdfs, b) == Of(init, b) + [];
  }

  // ---------------------------------------------------------------------------
  // Totals over all banks

  /** The banks in table order, then `UNKNOWN`: every tag a record can carry, once each. */
  const AllBanks: seq<Bank> := [HDFC, IDFC, AXIS, ICICI, SBI, KOTAK, CITI, AMEX, YES, INDUSIND, UNKNOWN]

  /** No bank is listed twice. */
  predicate Distinct(banks: seq<Bank>)
  {
    forall i, j :: 0 <= i < j < |banks| ==> banks[i] != banks[j]
  }

  lemma AllBanksListed(b: Bank)
    ensures b in AllBanks && Distinct(AllBanks)
  {
  }

  function CountOf(s: BankStats): nat
  {
    s.count
  }

  function SizeOf(s: BankStats): nat
  {
    s.totalSize
  }

  /** The sum of one field of the entries of `banks`. */
  function Tally(bd: map<Bank, BankStats>, banks: seq<Bank>, field: BankStats -> nat): nat
  {
    if banks == [] then 0 else field(Entry(bd, banks[0])) + Tally(bd, banks[1..], field)
  }

  /** Adding `d` to one listed bank's field adds `d` to the sum; other banks change nothing. */
  lemma {:induction false} TallyUpdate(bd: map<Bank, BankStats>, bd': map<Bank, BankStats>, b: Bank,
                                       banks: seq<Bank>, field: BankStats -> nat, d: nat)
    requires Distinct(banks)
    requires forall x :: x != b ==> Entry(bd', x) == Entry(bd, x)
    requires field(Entry(bd', b)) == field(Entry(bd, b)) + d
    ensures Tally(bd', banks, field) == Tally(bd, banks, field) + (if b in banks then d else 0)
  {
    if banks != [] {
      var rest := banks[1..];
      assert Distinct(rest) by {
        forall i, j | 0 <= i < j < |rest| ensures rest[i] != rest[j] {
          assert rest[i] == banks[i + 1] && rest[j] == banks[j + 1];
        }
      }
      assert b in banks <==> banks[0] == b || b in rest;
      if banks[0] == b {
        assert b !in rest by {
          forall j | 0 <= j < |rest| ensures rest[j] != b {
            assert rest[j] == banks[j + 1];
          }
        }
      }
      TallyUpdate(bd, bd', b, rest, field, d);
    }
  }

  /**
   * The counts of all entries add up to the number of records, `total_pdfs_downloaded`,
   * and their total sizes to the size of all records.
   */
  lemma {:induction false} BreakdownTotals(pdfs: seq<FileInfo>)
    ensures Tally(Breakdown(pdfs), AllBanks, CountOf) == |pdfs|
    ensures Tally(Breakdown(pdfs), AllBanks, SizeOf) == SizeSum(pdfs)
  {
    if pdfs == [] {
      TallyEmpty(AllBanks, CountOf);
      TallyEmpty(AllBanks, SizeOf);
    } else {
      var init := pdfs[..|pdfs| - 1];
      var pdf := pdfs[|pdfs| - 1];
      BreakdownTotals(init);
      AllBanksListed(pdf.bank);
      TallyUpdate(Breakdown(init), Breakdown(pdfs), pdf.bank, AllBanks, CountOf, 1);
      TallyUpdate(Breakdown(init), Breakdown(pdfs), pdf.bank, AllBanks, SizeOf, pdf.size);
    }
  }

  lemma {:induction false} TallyEmpty(banks: seq<Bank>, field: BankStats -> nat)
    requires field(NoFiles) == 0
    ensures Tally(map[], banks, field) == 0
  {
    if banks != [] {
      TallyEmpty(banks[1..], field);
    }
  }

  // ---------------------------------------------------------------------------
  // The report

  /** The `summary` dictionary of `save_summary_report`, without its copy of the configuration. */
  datatype Report = Report(
    totalEmailsFound: nat,
    totalPdfsDownloaded: nat,
    downloadTimestamp: string,
    daysSearched: int,
    emailAddress: string,
    imapServer: string,
    downloadFolder: string,
    bankBreakdown: map<Bank, BankStats>,
    fileDetails: seq<FileInfo>)

  /** The report `save_summary_report` writes out, `iso` being the time of writing. */
  method SaveSummaryReport(config: Config, pdfs: seq<FileInfo>, emailCount: nat, daysBack: int, iso: string)
    returns (report: Report)
    ensures report.totalPdfsDownloaded == |pdfs| && report.fileDetails == pdfs
    ensures report.bankBreakdown == Breakdown(pdfs)
    ensures report.totalEmailsFound == emailCount && report.daysSearched == daysBack
    ensures report.downloadTimestamp == iso
    ensures report.emailAddress == config.emailAddress && report.imapServer == config.imapServer
    ensures report.downloadFolder == config.downloadFolder
  {
    var breakdown := BankBreakdown(pdfs);
    report := Report(emailCount, |pdfs|, iso, daysBack, config.emailAddress, config.imapServer,
                     config.downloadFolder, breakdown, pdfs);
  }
}
