# Credit-card statement fetcher: the naming and bookkeeping core

`email-fetcher.py` logs in to an IMAP mailbox and searches for credit-card statement
mails. It saves every PDF attachment it finds under a name built from the bank, the
statement date and the time of the run, and writes a summary of what it downloaded.
This project models the deterministic core of that program in Dafny and proves what
each part promises:

- **Configuration** (`config.dfy`):
  - the built-in defaults;
  - the `load_config` merge, in which only four keys come from the settings file and the credentials always come from the environment;
  - `validate_config`.
- **Bank tagging** (`banks.dfy`): `identify_bank` returns the first bank in table order whose patterns occur in the lower-cased sender and subject.
- **File-name sanitising** (`safe_filename.dfy`): `make_safe_filename` works in three steps. It replaces the unsafe characters, collapses whitespace into single underscores, and keeps at most 100 characters. It is written as the source's loop, specified by a function.
- **Statement dates** (`statement_date.dfy`): `extract_statement_date` tries four regular expressions in order, searching each leftmost-first. Each expression is a matcher written out by hand.
- **Attachment acceptance** (`attachments.dfy`): `is_pdf_attachment` and the name, payload and size checks at the head of `save_pdf_attachment`.
- **Output names** (`naming.dfy`):
  - the `name_parts` composition;
  - the placement in the download folder;
  - the loop that moves a taken path aside to `name_(1).ext`, `name_(2).ext`, ….
- **Saving** (`saving.dfy`): `save_pdf_attachment` and the `extract_pdf_attachments` loop over all fetched messages. The file system is the set of paths that exist.
- **Searching** (`search.dfy`): the IMAP SEARCH criteria, whose syntax is that of section 6.4.4 of RFC 3501, and the pooling of what each search returns.
- **Summary** (`summary.dfy`): the `bank_breakdown` loop of `save_summary_report` and the report's figures.
- **Shared helpers**: `text.dfy` models Python's `str.lower`, `in`, `endswith`, `split()` and `join`. `paths.dfy` models `os.path.splitext`, `join` and `basename`. `wrappers.dfy` holds `Option` and `Result`.

Three things the model shows about the code:

- **The bank table has ten entries.** `identify_bank` scans HDFC, IDFC, AXIS, ICICI, SBI, KOTAK, CITI, AMEX, YES and INDUSIND, in the order the source's dict literal lists them.
- **Underscores are not merged.** `make_safe_filename`'s comment speaks of removing repeated underscores, but the code only collapses whitespace. Underscores already in the name, and those produced by adjacent unsafe characters, stay as they are: `"a<>b"` becomes `"a__b"` (`SafeFilename.UnderscoresKept`).
- **The fourth date pattern is never used.** The pattern "DD Mon YYYY" can never decide the result. Wherever it matches, "Mon YYYY" matches too, at the month and up to the same end, and "Mon YYYY" is tried first. So a day written before a month name is never part of the result: "15 Aug 2024" gives `Aug_2024`.

## Model

| member | source | states |
|---|---|---|
| Config.DefaultConfig | email-fetcher.py:73-107 | The defaults have empty credentials, so they alone fail validation at the address. Every name part is switched on, and the accepted sizes form a non-empty window above zero |
| Config.LoadConfig | email-fetcher.py:39-71 | Each of the four whitelisted settings is the file's value when the file could be read and sets it, and the default otherwise. Address, password, server and port are the environment's values, or their defaults |
| Config.LoadConfigUsesOnlyWhitelisted | email-fetcher.py:42-54 | Only `download_folder`, `search_criteria`, `file_naming` and `filters` are taken from the settings file. Two files that agree on those keys give the same configuration. A file with none of them gives the same configuration as a missing or unreadable file |
| Config.LoadConfigCredentials | email-fetcher.py:56-69 | Address, password, server and port come from the environment whatever the file says, with defaults `""`, `""`, `imap.gmail.com` and `993` |
| Config.ValidateConfig | email-fetcher.py:139-153 | The configuration is valid iff the address, the password and the server are all non-empty. Otherwise the first empty one, in that order, is reported |
| Config.LoadedConfigValid | email-fetcher.py:139-153 | A freshly loaded configuration is valid iff the environment sets a non-empty address and password and does not set the server to the empty string. The settings file has no influence |
| Banks.IdentifyBank | email-fetcher.py:261-282 | The tag is `UNKNOWN` iff no pattern of any bank occurs in the combined lower-cased text. Otherwise the tagged bank's patterns occur there, and no bank earlier in the table is mentioned |
| Banks.IdentifiedAs | email-fetcher.py:278-282 | The first table entry the text mentions decides the tag |
| Banks.HdfcInAnyCase | email-fetcher.py:261-282 | A sender containing `hdfc` in any mix of cases is tagged HDFC, whatever the subject |
| Banks.SubjectMention | email-fetcher.py:261-282 | A bank's pattern in the subject, in any case, tags the message with that bank when no earlier bank is mentioned |
| Banks.IdfcUnlessHdfc | email-fetcher.py:263-280 | A sender mentioning `idfc` is tagged IDFC unless the text also contains `hdfc`, the earlier entry |
| Banks.HdfcStatementSender | email-fetcher.py:261-282 | The default HDFC sender `creditcards@hdfcbank.net` is tagged HDFC |
| Banks.IdfcStatementSender | email-fetcher.py:261-282 | The default IDFC sender `statements@idfcfirstbank.com` is tagged IDFC |
| Banks.NoPatternUnknown | email-fetcher.py:278-282 | A sender and subject mentioning no pattern are tagged `UNKNOWN` |
| SafeFilename.MakeSafeFilename | email-fetcher.py:284-294 | The loop over the unsafe characters, the whitespace collapse and the truncation compute `SafeName`, and the result is safe: no unsafe character, no whitespace, at most 100 characters |
| SafeFilename.SafeNameIsSafe | email-fetcher.py:287-294 | The sanitised name has no character of `<>:"/\|?*`, no whitespace and at most 100 characters |
| SafeFilename.SafeNameFixedPoint | email-fetcher.py:284-294 | A name is left unchanged iff it is already safe |
| SafeFilename.SafeNameIdempotent | email-fetcher.py:284-294 | Sanitising a sanitised name changes nothing |
| SafeFilename.SafeNameOfWord | email-fetcher.py:287-290 | On a short name without whitespace, each unsafe character becomes `_` and every other character stays, position by position |
| SafeFilename.UnderscoresKept | email-fetcher.py:292-293 | `"a<>b"` becomes `"a__b"`: the underscores are not merged despite the comment |
| SafeFilename.WhitespaceCollapsed | email-fetcher.py:293 | `" a  b "` becomes `"a_b"`: runs of whitespace become one underscore and are dropped at both ends |
| Text.SplitWords | email-fetcher.py:293 | Every word `split()` returns is non-empty and has no whitespace |
| Text.SplitKeepsText | email-fetcher.py:293 | The words of `split()`, laid end to end, are the input with its whitespace removed, in order |
| Text.JoinSplitNoSpace | email-fetcher.py:293 | Joining the words of a string with a non-whitespace separator leaves no whitespace |
| StatementDate.FirstDateSpec | email-fetcher.py:322-325 | Trying the patterns from index `k` on gives nothing iff none of them matches. Otherwise it gives the leftmost match of the first pattern that matches, with spaces turned into `_` |
| StatementDate.SearchNone | email-fetcher.py:323 | `re.search` finds nothing iff the pattern matches at no position |
| StatementDate.SearchLeftmost | email-fetcher.py:323 | `re.search` returns the leftmost match |
| StatementDate.ExtractStatementDate | email-fetcher.py:308-327 | With no pattern matching, the result is the fallback `%Y%m`. Otherwise it is the leftmost match of the first pattern that matches in `subject + " " + filename`, with spaces turned into `_` |
| StatementDate.FoundDateHasNoSpace | email-fetcher.py:324-325 | An extracted date never contains a space |
| StatementDate.SlashDateExtracted | email-fetcher.py:308-327 | The subject `15/08/2024` yields `15/08/2024`, slashes included |
| StatementDate.NoSeparatorNoNumericDate | email-fetcher.py:314-315 | A text without `-` and `/` holds no numeric date of either kind |
| StatementDate.DayMonthNameYearShadowed | email-fetcher.py:316-317 | Wherever "DD Mon YYYY" matches, "Mon YYYY" matches from the month to the same end |
| StatementDate.DayMonthNameYearNeverUsed | email-fetcher.py:313-325 | When "Mon YYYY" matches nowhere, "DD Mon YYYY" matches nowhere either, so the fourth pattern never decides the result |
| StatementDate.MonthYearExtracted | email-fetcher.py:308-327 | `"Aug 2024"` gives `Aug_2024` |
| StatementDate.DayBeforeMonthDropped | email-fetcher.py:313-325 | `"15 Aug 2024"` gives `Aug_2024`: the day is left out |
| Attachments.IsPdfAttachment | email-fetcher.py:296-306 | A part is taken iff its disposition contains `attachment` and either its content type is exactly `application/pdf` or its lower-cased name ends in `.pdf` (both directions) |
| Attachments.PdfNameAnyCase | email-fetcher.py:303-304 | An attachment named `….PDF`, `….Pdf` and so on is taken, whatever its content type |
| Attachments.UpperCaseDispositionRejected | email-fetcher.py:302 | The disposition test is case-sensitive: `ATTACHMENT` is not taken |
| Attachments.InlinePartRejected | email-fetcher.py:302 | An `inline` part is never taken |
| Attachments.SizeGate | email-fetcher.py:333-353 | A part passes iff it has a non-empty name, a non-empty payload and a payload size within `[min_file_size, max_file_size]`. Passing carries the size. A missing name and an empty payload are reported as such |
| Attachments.DefaultSizeWindow | email-fetcher.py:343-353 | Under the defaults a named part passes iff its payload holds 1024 to 10485760 bytes. 1023 bytes is too small and 10485761 bytes is too large |
| Attachments.EmptyPayloadAlwaysDropped | email-fetcher.py:338-340 | An empty or missing payload is dropped whatever the size bounds |
| Naming.ComposeName | email-fetcher.py:362-375 | The appends to `name_parts` and the join give `FinalName` |
| Naming.FinalNameSpelledOut | email-fetcher.py:362-375 | The name is each enabled part (bank, date, timestamp, in that order) followed by `_`, then the sanitised file name, which always ends it |
| Naming.DefaultNameLayout | email-fetcher.py:362-375 | With the default naming the name is `bank_date_timestamp_file` |
| Naming.OutputNameAsWritten | email-fetcher.py:355-375 | The name the code composes, with the raw statement date, has no `/` iff the enabled date and timestamp parts have none |
| Naming.OutputName | email-fetcher.py:355-375 | The corrected name, with the date passed through `make_safe_filename`, is the as-written name whenever the date is already safe |
| Naming.NameSlashFree | email-fetcher.py:362-375 | With a slash-free bank tag and file name, the joined name is slash-free iff each enabled date and timestamp part is |
| Naming.SlashDateLeavesFolder | email-fetcher.py:358-382 | As written, a `/` date puts `/` in the name, so the name is not the last component of the joined path (see Findings) |
| Naming.OutputNameStaysInFolder | email-fetcher.py:355-382 | With the date sanitised, the name has no `/` and is the last component of the path under any folder |
| Paths.SplitExt | email-fetcher.py:388 | `os.path.splitext` splits the path into a root and an extension that together give the path back. The extension is empty or a dot followed by no dot and no `/` |
| Naming.AttemptInFolder | email-fetcher.py:385-390 | For a name without `/`, every candidate moved aside under a folder is that folder joined with the name moved aside, and has no `/` |
| Naming.AttemptInjective | email-fetcher.py:385-390 | Distinct counters give distinct candidate paths |
| Naming.FirstFreeUnique | email-fetcher.py:385-390 | At most one path is the first free candidate |
| Naming.DedupPath | email-fetcher.py:385-390 | The loop ends. It returns the first candidate in counter order that does not exist, which is the composed path itself when that is free |
| Saving.SavePdfAttachment | email-fetcher.py:329-414 | A record comes back iff the size gate passes and the composed name, with the raw date, has no `/`. Otherwise `open` fails and nothing is recorded. The record describes the part and its message: original name, size, bank, statement date, headers, and the basename of the path. The path is the first free candidate derived from the composed name, directly in the download folder under the recorded name |
| Saving.SavedInFolder | email-fetcher.py:382-397 | A file saved under a name without `/` lies directly in the download folder. Its base name is the composed name moved aside by some counter. It is the composed name itself when that path was free |
| Saving.SlashDateDropped | email-fetcher.py:358-414 | With the default naming, an attachment of a message whose subject is `15/08/2024` is not saved and yields no record (see Findings) |
| Saving.SaveMessageParts | email-fetcher.py:443-450 | The records of one multipart message are exactly its PDF attachments that are saved, one for one, in walk order. Each is at the first free candidate while the earlier paths exist. Their paths are distinct and none existed before |
| Saving.ExtractPdfAttachments | email-fetcher.py:416-456 | The records are exactly the PDF attachments of the fetched multipart messages that pass the gate and get a name without `/`, one for one, in message and walk order. Each path is the first free candidate of its composed path, given the paths that existed and those saved before it. Their paths are distinct, none existed before, and the file system afterwards is what existed plus those paths |
| Search.BuildCriteria | email-fetcher.py:197-219 | The list holds one `FROM` search per HDFC then IDFC sender, then one `SUBJECT` search per keyword, then the three fixed searches. Its length is the senders plus the keywords plus 3 |
| Search.EveryCriterionDated | email-fetcher.py:203-219 | Every criterion ends with ` SINCE "<start date>")` |
| Search.DefaultCriteriaCount | email-fetcher.py:197-219 | The defaults give 16 criteria |
| Search.CollectIds | email-fetcher.py:221-236 | The loop over the criteria computes the pooled set of ids |
| Search.PooledIff | email-fetcher.py:221-236 | An id is pooled iff some search in the list answered with it |
| Search.PooledWords | email-fetcher.py:226-228 | Every pooled id is a non-empty word without whitespace |
| Search.FailedSearchesIgnored | email-fetcher.py:232-235 | A search that fails adds nothing |
| Search.SearchCreditCardEmails | email-fetcher.py:182-240 | The ids returned are the pool of the searches built for the configured senders and keywords |
| Summary.BankBreakdown | email-fetcher.py:477-488 | The loop over the records computes `Breakdown`, the per-bank fold |
| Summary.BreakdownEntry | email-fetcher.py:477-488 | A bank has an entry iff some record carries it. The entry's count is the number of its records, its size is the sum of their sizes, and its files are their names in input order |
| Summary.BreakdownTotals | email-fetcher.py:461-488 | The counts of all entries add up to `total_pdfs_downloaded`, the number of records, and their sizes to the total size |
| Summary.SaveSummaryReport | email-fetcher.py:458-476 | The report holds the email count, the number of records, the run time, the days searched, the address, the server, the folder, the breakdown and the records |

## Left out

- IMAP connection, login, `select`, `fetch` and logout, and the outer `try` of the search: these are network I/O. A search is a function from criterion to an optional answer, where `None` stands for a search that raised.
- MIME parsing, `walk()` and `decode_header_value`: a fetched message is given as its decoded headers, its multipart flag and the parts `walk()` visits. A fetch that raised is a `None` message.
- Writing files, `os.makedirs`, the JSON and CSV summary files, and logging: the file system is the set of existing paths. A save adds its path.
- `open()` failing for reasons other than a `/` in the name (permissions, a full disk): not modelled. A name with `/` is taken to fail, because the text before the `/` names a sub-folder of the download folder that nothing created. The model does not cover a download folder that already holds such a sub-folder.
- `datetime.now()` and the locale's `%d-%b-%Y`, `%Y%m`, `%Y%m%d_%H%M%S` and ISO texts: these are the parameters `since` and `Clock`, fixed for one run.
- `int(IMAP_PORT)`: the port is kept as the text read from the environment, so a non-numeric port raising is not modelled.
- Search.CollectIds: the answer is split on the whitespace `str.split()` knows, while the source splits the answer's bytes with `bytes.split()`, which knows ASCII whitespace only. IMAP answers are ASCII, where the two agree.
- Search.SearchCreditCardEmails: returns the ids as a set. The source turns the set into a list whose order Python leaves unspecified.
- Python's full Unicode case folding and Unicode digits: `lower()` and `\d` are modelled on ASCII. Whitespace is the set `str.split()` and `\s` share.
- `allowed_extensions`: kept in the configuration but never consulted, as in the source.
- The float MB figures printed by the command-line entry point, the argument parsing and `run_complete_fetch`'s orchestration.
- The deep structure of the settings file: a key taken from the file replaces the default as a whole, which the model keeps. A malformed value, such as a `filters` object missing a key that makes the source raise later, is not modelled.

## Findings

| source | as written | input that shows it | evidently intended | confidence | as-written member | corrected member |
|---|---|---|---|---|---|---|
| email-fetcher.py:358-414 | The statement date, which the two numeric patterns let through with `/` separators, goes into the file name unsanitised. `os.path.join` then makes it a path into a sub-directory nobody created, so `open()` fails and the attachment is dropped | subject `15/08/2024`, default naming | The file is saved directly in the download folder under the composed name | not executed | Saving.SlashDateDropped | Naming.OutputNameStaysInFolder |
