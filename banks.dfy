/**
 * `identify_bank`: tag a message with the first bank, in a fixed order, one of whose
 * patterns occurs in the lower-cased sender and subject.
 */
module Banks {
  import opened Text

  datatype Bank = HDFC | IDFC | AXIS | ICICI | SBI | KOTAK | CITI | AMEX | YES | INDUSIND | UNKNOWN

  /** The tag written into file names and reports. */
  function Tag(b: Bank): string
  {
    match b
    case HDFC => "HDFC"
    case IDFC => "IDFC"
    case AXIS => "AXIS"
    case ICICI => "ICICI"
    case SBI => "SBI"
    case KOTAK => "KOTAK"
    case CITI => "CITI"
    case AMEX => "AMEX"
    case YES => "YES"
    case INDUSIND => "INDUSIND"
    case UNKNOWN => "UNKNOWN"
  }

  /** Each bank's patterns, in the order the table is scanned. */
  const Table: seq<(Bank, seq<string>)> := [
    (HDFC, ["hdfc", "hdfcbank"]),
    (IDFC, ["idfc", "idfcfirst"]),
    (AXIS, ["axis", "axisbank"]),
    (ICICI, ["icici", "icicibank"]),
    (SBI, ["sbi", "onlinesbi"]),
    (KOTAK, ["kotak", "kotakbank"]),
    (CITI, ["citi", "citibank"]),
    (AMEX, ["americanexpress", "amex"]),
    (YES, ["yesbank", "yes bank"]),
    (INDUSIND, ["indusind", "induslnd"])
  ]

  /** Position of a bank in the table; `UNKNOWN` is past its end. */
  function Rank(b: Bank): (i: nat)
    ensures i <= |Table|
    ensures i < |Table| <==> b != UNKNOWN
    ensures i < |Table| ==> Table[i].0 == b
  {
    match b
    case HDFC => 0
    case IDFC => 1
    case AXIS => 2
    case ICICI => 3
    case SBI => 4
    case KOTAK => 5
    case CITI => 6
    case AMEX => 7
    case YES => 8
    case INDUSIND => 9
    case UNKNOWN => 10
  }

  /** The text searched: lower-cased sender, a space, lower-cased subject. */
  function CombinedText(sender: string, subject: string): string
  {
    Lower(sender) + " " + Lower(subject)
  }

  /** `any(pattern in text for pattern in patterns)`. */
  predicate AnyOccurs(text: string, patterns: seq<string>)
  {
    exists p :: p in patterns && Contains(text, p)
  }

  /** The table entry at `i` names a pattern that occurs in `text`. */
  predicate Mentions(text: string, i: int)
    requires 0 <= i < |Table|
  {
    AnyOccurs(text, Table[i].1)
  }

  /** Index of the first table entry from `from` on whose patterns occur in `text`. */
  function FirstMention(text: string, from: nat): (i: nat)
    requires from <= |Table|
    ensures from <= i <= |Table|
    ensures i < |Table| ==> Mentions(text, i)
    ensures forall j :: from <= j < i ==> !Mentions(text, j)
    decreases |Table| - from
  {
    if from == |Table| then from
    else if Mentions(text, from) then from
    else FirstMention(text, from + 1)
  }

  /**
   * `identify_bank`: the first bank in table order that the combined text mentions, or
   * `UNKNOWN` when it mentions none.
   */
  function IdentifyBank(sender: string, subject: string): (b: Bank)
    ensures b == UNKNOWN <==>
      forall i :: 0 <= i < |Table| ==> !Mentions(CombinedText(sender, subject), i)
    ensures b != UNKNOWN ==> Mentions(CombinedText(sender, subject), Rank(b))
    ensures forall j :: 0 <= j < Rank(b) ==> !Mentions(CombinedText(sender, subject), j)
  {
    var i := FirstMention(CombinedText(sender, subject), 0);
    if i < |Table| then Table[i].0 else UNKNOWN
  }

  /** The first entry the text mentions decides the tag. */
  lemma IdentifiedAs(sender: string, subject: string, i: nat)
    requires i < |Table| && Mentions(CombinedText(sender, subject), i)
    requires forall j :: 0 <= j < i ==> !Mentions(CombinedText(sender, subject), j)
    ensures IdentifyBank(sender, subject) == Table[i].0
  {
    var r := FirstMention(CombinedText(sender, subject), 0);
    assert r == i;
  }

  /** An occurrence in the lower-cased sender is an occurrence in the combined text. */
  lemma SenderInCombined(sender: string, subject: string, p: string)
    requires Contains(Lower(sender), p)
    ensures Contains(CombinedText(sender, subject), p)
  {
    ContainsInContext([], Lower(sender), " " + Lower(subject), p);
    assert [] + Lower(sender) + (" " + Lower(subject)) == CombinedText(sender, subject);
  }

  /** An occurrence in the lower-cased subject is an occurrence in the combined text. */
  lemma SubjectInCombined(sender: string, subject: string, p: string)
    requires Contains(Lower(subject), p)
    ensures Contains(CombinedText(sender, subject), p)
  {
    ContainsInContext(Lower(sender) + " ", Lower(subject), [], p);
    assert Lower(sender) + " " + Lower(subject) + [] == CombinedText(sender, subject);
  }

  /** A sender carrying "hdfc" in any mix of cases is tagged HDFC, whatever the subject. */
  lemma HdfcInAnyCase(sender: string, subject: string, written: string)
    requires Lower(written) == "hdfc" && Contains(sender, written)
    ensures IdentifyBank(sender, subject) == HDFC
  {
    ContainsLower(sender, written);
    SenderInCombined(sender, subject, "hdfc");
    assert "hdfc" in Table[0].1;
    IdentifiedAs(sender, subject, 0);
  }

  /**
   * A subject naming a bank's pattern in any case tags the message with that bank when no
   * earlier bank in the table is mentioned.
   */
  lemma SubjectMention(sender: string, subject: string, i: nat, written: string)
    requires i < |Table| && Lower(written) in Table[i].1 && Contains(subject, written)
    requires forall j :: 0 <= j < i ==> !Mentions(CombinedText(sender, subject), j)
    ensures IdentifyBank(sender, subject) == Table[i].0
  {
    ContainsLower(subject, written);
    SubjectInCombined(sender, subject, Lower(written));
    IdentifiedAs(sender, subject, i);
  }

  /**
   * A sender carrying "idfc" is tagged IDFC unless the text also mentions "hdfc": the
   * longer HDFC pattern "hdfcbank" can only occur where "hdfc" does.
   */
  lemma IdfcUnlessHdfc(sender: string, subject: string)
    requires Contains(Lower(sender), "idfc")
    requires !Contains(CombinedText(sender, subject), "hdfc")
    ensures IdentifyBank(sender, subject) == IDFC
  {
    var text := CombinedText(sender, subject);
    if Contains(text, "hdfcbank") {
      assert OccursAt("hdfcbank", "hdfc", 0);
      ContainsAt("hdfcbank", "hdfc", 0);
      ContainsTransitive(text, "hdfcbank", "hdfc");
    }
    assert !Mentions(text, 0);
    SenderInCombined(sender, subject, "idfc");
    assert "idfc" in Table[1].1;
    IdentifiedAs(sender, subject, 1);
  }

  /** The default HDFC sender `creditcards@hdfcbank.net` is tagged HDFC. */
  lemma HdfcStatementSender()
    ensures IdentifyBank("creditcards@hdfcbank.net", "") == HDFC
  {
    var hdfc := "creditcards@hdfcbank.net";
    assert OccursAt(hdfc, "hdfc", 12);
    ContainsAt(hdfc, "hdfc", 12);
    HdfcInAnyCase(hdfc, "", "hdfc");
  }

  /** The default IDFC sender `statements@idfcfirstbank.com` is tagged IDFC. */
  lemma IdfcStatementSender()
    ensures IdentifyBank("statements@idfcfirstbank.com", "") == IDFC
  {
    var idfc := "statements@idfcfirstbank.com";
    assert OccursAt(idfc, "idfc", 11);
    ContainsAt(idfc, "idfc", 11);
    ContainsLower(idfc, "idfc");
    assert Lower("idfc") == "idfc";
    IdfcSenderHasNoH();
    IdfcUnlessHdfc(idfc, "");
  }

  /** No `h` in the IDFC sender's text, so no `hdfc` either. */
  lemma IdfcSenderHasNoH()
    ensures !Contains(CombinedText("statements@idfcfirstbank.com", ""), "hdfc")
  {
    var idfc := "statements@idfcfirstbank.com";
    var text := CombinedText(idfc, "");
    assert forall k :: 0 <= k < |idfc| ==> idfc[k] != 'h' && idfc[k] != 'H';
    assert forall k :: 0 <= k < |text| ==> text[k] != 'h';
    NotContainsFirstChar(text, "hdfc");
  }

  /** A sender with no pattern of any bank, and a subject with none, is tagged UNKNOWN. */
  lemma NoPatternUnknown(sender: string, subject: string)
    requires forall i, p :: 0 <= i < |Table| && p in Table[i].1 ==>
      !Contains(CombinedText(sender, subject), p)
    ensures IdentifyBank(sender, subject) == UNKNOWN
  {
  }
}
