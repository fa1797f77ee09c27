/**
 * The search of `search_credit_card_emails`: one IMAP SEARCH criterion per configured
 * sender and subject keyword, plus three fixed body searches, all limited to messages
 * since the start date; the ids found are pooled into one set.
 */
module Search {
  import opened Wrappers
  import opened Text
  import opened Config

  /** `' SINCE "<date>")'`, the tail every criterion shares. */
  function SinceTail(since: string): string
  {
    " SINCE \"" + since + "\")"
  }

  /** `(FROM "<sender>" SINCE "<date>")`. */
  function FromCriterion(sender: string, since: string): string
  {
    "(FROM \"" + sender + "\"" + SinceTail(since)
  }

  /** `(SUBJECT "<keyword>" SINCE "<date>")`. */
  function SubjectCriterion(keyword: string, since: string): string
  {
    "(SUBJECT \"" + keyword + "\"" + SinceTail(since)
  }

  /** The three searches appended after the configured ones, in their order. */
  function FixedCriteria(since: string): seq<string>
  {
    [ "(BODY \"HDFC Credit Card\"" + SinceTail(since),
      "(BODY \"IDFC FIRST Bank\"" + SinceTail(since),
      "(SUBJECT \"statement\" BODY \"credit card\"" + SinceTail(since) ]
  }

  /**
   * `criteria` is the list for these settings: one `FROM` search per sender, HDFC senders
   * first, then one `SUBJECT` search per keyword, then the fixed searches.
   */
  predicate CriteriaFor(search: SearchCriteria, since: string, criteria: seq<string>)
  {
    var senders := search.hdfcSenders + search.idfcSenders;
    && |criteria| == |senders| + |search.subjectKeywords| + 3
    && (forall j :: 0 <= j < |senders| ==> criteria[j] == FromCriterion(senders[j], since))
    && (forall j :: 0 <= j < |search.subjectKeywords| ==>
          criteria[|senders| + j] == SubjectCriterion(search.subjectKeywords[j], since))
    && criteria[|senders| + |search.subjectKeywords|..] == FixedCriteria(since)
  }

  /**
   * The criteria list of `search_credit_card_emails`: the HDFC then the IDFC senders, then
   * the subject keywords, then the three fixed searches.
   */
  method BuildCriteria(search: SearchCriteria, since: string) returns (criteria: seq<string>)
    ensures CriteriaFor(search, since, criteria)
    ensures |criteria| == |search.hdfcSenders| + |search.idfcSenders| + |search.subjectKeywords| + 3
  {
    var senders := search.hdfcSenders + search.idfcSenders;
    criteria := [];
    for j := 0 to |senders|
      invariant |criteria| == j
      invariant forall k :: 0 <= k < j ==> criteria[k] == FromCriterion(senders[k], since)
    {
      criteria := criteria + [FromCriterion(senders[j], since)];
    }
    var keywords := search.subjectKeywords;
    for j := 0 to |keywords|
      invariant |criteria| == |senders| + j
      invariant forall k :: 0 <= k < |senders| ==> criteria[k] == FromCriterion(senders[k], since)
      invariant forall k :: 0 <= k < j ==> criteria[|senders| + k] == SubjectCriterion(keywords[k], since)
    {
      criteria := criteria + [SubjectCriterion(keywords[j], since)];
    }
    ghost var configured := criteria;
    criteria := criteria + FixedCriteria(since);
    assert criteria[|configured|..] == FixedCriteria(since);
  }

  lemma EndsWithTail(head: string, tail: string)
    ensures EndsWith(head + tail, tail)
  {
    assert (head + tail)[|head|..] == tail;
  }

  /** Every criterion of the list is limited to messages since the start date. */
  lemma EveryCriterionDated(search: SearchCriteria, since: string, criteria: seq<string>)
    requires CriteriaFor(search, since, criteria)
    ensures forall j :: 0 <= j < |criteria| ==> EndsWith(criteria[j], SinceTail(since))
  {
    var senders := search.hdfcSenders + search.idfcSenders;
    var n := |senders| + |search.subjectKeywords|;
    var tail := SinceTail(since);
    forall j | 0 <= j < |criteria| ensures EndsWith(criteria[j], tail) {
      if j < |senders| {
        assert criteria[j] == FromCriterion(senders[j], since);
        EndsWithTail("(FROM \"" + senders[j] + "\"", tail);
      } else if j < n {
        var k := j - |senders|;
        assert criteria[|senders| + k] == SubjectCriterion(search.subjectKeywords[k], since);
        EndsWithTail("(SUBJECT \"" + search.subjectKeywords[k] + "\"", tail);
      } else {
        var fixed := FixedCriteria(since);
        assert criteria[j] == fixed[j - n];
        if j - n == 0 {
          EndsWithTail("(BODY \"HDFC Credit Card\"", tail);
        } else if j - n == 1 {
          EndsWithTail("(BODY \"IDFC FIRST Bank\"", tail);
        } else {
          EndsWithTail("(SUBJECT \"statement\" BODY \"credit card\"", tail);
        }
      }
    }
  }

  /** The default configuration yields 3 + 3 sender searches, 7 keyword searches and 3 fixed ones. */
  lemma DefaultCriteriaCount()
    ensures |DefaultSearchCriteria.hdfcSenders + DefaultSearchCriteria.idfcSenders| +
            |DefaultSearchCriteria.subjectKeywords| + 3 == 16
  {
  }

  // ---------------------------------------------------------------------------
  // Pooling the results

  /**
   * The ids one search contributes: the words of the server's answer, or none when the
   * search failed (`None`) or found nothing.
   */
  function Found(answer: Option<string>): set<string>
  {
    if answer.Some? then set w | w in Split(answer.value) else {}
  }

  /** The ids of all searches among `criteria`, pooled. */
  function Pooled(criteria: seq<string>, server: string -> Option<string>): set<string>
  {
    if criteria == [] then {}
    else Pooled(criteria[..|criteria| - 1], server) + Found(server(criteria[|criteria| - 1]))
  }

  /**
   * The loop over the criteria: each search that answers adds its ids to the set; a search
   * that fails is skipped.
   */
  method CollectIds(criteria: seq<string>, server: string -> Option<string>) returns (ids: set<string>)
    ensures ids == Pooled(criteria, server)
  {
    ids := {};
    for j := 0 to |criteria|
      invariant ids == Pooled(criteria[..j], server)
    {
      assert criteria[..j + 1][..j] == criteria[..j];
      var answer := server(criteria[j]);
      if answer.Some? && answer.value != [] {
        ids := ids + (set w | w in Split(answer.value));
      } else if answer.Some? {
        SplitBlank(answer.value);
      }
    }
    assert criteria[..|criteria|] == criteria;
  }

  /** An id is in the pooled set exactly when some search in the list answered with it. */
  lemma PooledIff(criteria: seq<string>, server: string -> Option<string>, id: string)
    ensures id in Pooled(criteria, server) <==>
      exists j :: 0 <= j < |criteria| && id in Found(server(criteria[j]))
  {
    if id in Pooled(criteria, server) {
      PooledFrom(criteria, server, id);
    }
    forall j | 0 <= j < |criteria| && id in Found(server(criteria[j]))
      ensures id in Pooled(criteria, server)
    {
      PooledHas(criteria, server, j, id);
    }
  }

  lemma {:induction false} PooledFrom(criteria: seq<string>, server: string -> Option<string>, id: string)
    requires id in Pooled(criteria, server)
    ensures exists j :: 0 <= j < |criteria| && id in Found(server(criteria[j]))
  {
    var k := |criteria| - 1;
    if id !in Found(server(criteria[k])) {
      var init := criteria[..k];
      PooledFrom(init, server, id);
      var j :| 0 <= j < |init| && id in Found(server(init[j]));
      assert init[j] == criteria[j];
    }
  }

  lemma {:induction false} PooledHas(criteria: seq<string>, server: string -> Option<string>, j: nat, id: string)
    requires j < |criteria| && id in Found(server(criteria[j]))
    ensures id in Pooled(criteria, server)
  {
    var k := |criteria| - 1;
    if j < k {
      var init := criteria[..k];
      assert init[j] == criteria[j];
      PooledHas(init, server, j, id);
    }
  }

  /** Every pooled id is a non-empty word without whitespace. */
  lemma {:induction false} PooledWords(criteria: seq<string>, server: string -> Option<string>)
    ensures forall id :: id in Pooled(criteria, server) ==> |id| > 0 && All(id, NotSpace)
  {
    if criteria != [] {
      PooledWords(criteria[..|criteria| - 1], server);
      var answer := server(criteria[|criteria| - 1]);
      if answer.Some? {
        SplitWords(answer.value);
      }
    }
  }

  /** Searches that fail add nothing: dropping them from the list leaves the pooled set as it is. */
  lemma {:induction false} FailedSearchesIgnored(criteria: seq<string>, c: string, server: string -> Option<string>)
    requires server(c).None?
    ensures Pooled(criteria + [c], server) == Pooled(criteria, server)
  {
    assert (criteria + [c])[..|criteria|] == criteria;
  }

  /**
   * `search_credit_card_emails` once connected: build the criteria for the configured
   * senders and keywords and pool what each search finds. `since` is the start date as
   * `%d-%b-%Y` text.
   */
  method SearchCreditCardEmails(config: Config, since: string, server: string -> Option<string>)
    returns (ids: set<string>)
    ensures exists criteria ::
      (CriteriaFor(config.searchCriteria, since, criteria) && ids == Pooled(criteria, server))
  {
    var criteria := BuildCriteria(config.searchCriteria, since);
    ids := CollectIds(criteria, server);
  }
}
