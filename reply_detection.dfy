/**
 * Deciding whether the messages a mailbox search returned hold a reply to the last
 * email sent: the loop over `email_ids` in `check_for_replies`.
 */
module ReplyDetection {
  import opened Wrappers

  /**
   * A message is a reply exactly when an email has been sent and the message's date is
   * strictly later than that send. A date of `None` stands for a message without a
   * `Date` header or whose date could not be parsed or compared.
   */
  predicate Qualifies(date: Option<int>, lastSent: Option<int>) {
    lastSent.Some? && date.Some? && date.value > lastSent.value
  }

  /** Some candidate is a reply. */
  predicate IsReply(dates: seq<Option<int>>, lastSent: Option<int>) {
    exists i :: 0 <= i < |dates| && Qualifies(dates[i], lastSent)
  }

  /** What fetching one of the ids the search returned gives. */
  datatype Fetch =
    | FetchRaised                    // `fetch` or parsing the message raised: the check fails
    | FetchNotOk                     // the server answered the FETCH with a status other than OK
    | Fetched(date: Option<int>, subjectDecodes: bool)
      // `date`: `None` when the Date header is missing, empty, unparsable or not comparable;
      // `subjectDecodes`: whether decoding the Subject header for the log succeeds

  /**
   * The date the scan goes by: decoding the subject happens inside the same `try` as the
   * date comparison, so a qualifying message whose subject fails to decode is skipped
   * like one without a date.
   */
  function EffectiveDate(f: Fetch): Option<int> {
    if f.Fetched? && f.subjectDecodes then f.date else None
  }

  /** The date the scan goes by for each fetched message: present exactly when the fetch
      succeeded, the message has a usable date and its subject decodes. */
  function Dates(found: seq<Fetch>): (dates: seq<Option<int>>)
    ensures |dates| == |found|
    ensures forall i :: 0 <= i < |found| ==>
      (dates[i].Some? <==> found[i].Fetched? && found[i].subjectDecodes && found[i].date.Some?)
      && (dates[i].Some? ==> dates[i] == found[i].date)
  {
    seq(|found|, i requires 0 <= i < |found| => EffectiveDate(found[i]))
  }

  predicate NoneRaised(found: seq<Fetch>) {
    forall i :: 0 <= i < |found| ==> !found[i].FetchRaised?
  }

  datatype Verdict = ReplyFound | NoReply | FetchFailed

  /** The scan in order: the first reply wins, a raising fetch before it fails the check. */
  function Scan(found: seq<Fetch>, lastSent: Option<int>): (v: Verdict)
    ensures v == FetchFailed ==> exists i :: 0 <= i < |found| && found[i].FetchRaised?
    ensures v == ReplyFound ==> lastSent.Some? && exists i :: 0 <= i < |found| && Qualifies(EffectiveDate(found[i]), lastSent)
    ensures v == NoReply ==> forall i :: 0 <= i < |found| ==> !Qualifies(EffectiveDate(found[i]), lastSent)
  {
    if found == [] then NoReply
    else if found[0].FetchRaised? then FetchFailed
    else if Qualifies(EffectiveDate(found[0]), lastSent) then ReplyFound
    else Scan(found[1..], lastSent)
  }

  /** A reply is found exactly when some message qualifies and no fetch before it raised. */
  lemma {:induction false} ScanFindsFirstReply(found: seq<Fetch>, lastSent: Option<int>)
    ensures Scan(found, lastSent) == ReplyFound <==>
      exists k :: 0 <= k < |found| && Qualifies(EffectiveDate(found[k]), lastSent)
        && forall j :: 0 <= j < k ==> !found[j].FetchRaised?
  {
    if found != [] && !found[0].FetchRaised? && !Qualifies(EffectiveDate(found[0]), lastSent) {
      ScanFindsFirstReply(found[1..], lastSent);
      if Scan(found, lastSent) == ReplyFound {
        var k :| 0 <= k < |found[1..]| && Qualifies(EffectiveDate(found[1..][k]), lastSent)
          && forall j :: 0 <= j < k ==> !found[1..][j].FetchRaised?;
        assert forall j :: 0 <= j < k + 1 ==> !found[j].FetchRaised? by {
          forall j | 0 <= j < k + 1 ensures !found[j].FetchRaised? {
            if j > 0 { assert found[j] == found[1..][j - 1]; }
          }
        }
      }
      if exists k :: 0 <= k < |found| && Qualifies(EffectiveDate(found[k]), lastSent)
          && forall j :: 0 <= j < k ==> !found[j].FetchRaised? {
        var k :| 0 <= k < |found| && Qualifies(EffectiveDate(found[k]), lastSent)
          && forall j :: 0 <= j < k ==> !found[j].FetchRaised?;
        assert k > 0 && found[k] == found[1..][k - 1];
      }
    }
  }

  /** When no fetch raises, the scan decides exactly `IsReply` over the messages' dates. */
  lemma {:induction false} ScanDecidesIsReply(found: seq<Fetch>, lastSent: Option<int>)
    requires NoneRaised(found)
    ensures Scan(found, lastSent) != FetchFailed
    ensures Scan(found, lastSent) == ReplyFound <==> IsReply(Dates(found), lastSent)
  {
    if found != [] {
      ScanDecidesIsReply(found[1..], lastSent);
      var dates, rest := Dates(found), Dates(found[1..]);
      if IsReply(rest, lastSent) {
        var i :| 0 <= i < |rest| && Qualifies(rest[i], lastSent);
        assert dates[i + 1] == rest[i];
      }
      if IsReply(dates, lastSent) && !Qualifies(dates[0], lastSent) {
        var i :| 0 <= i < |dates| && Qualifies(dates[i], lastSent);
        assert rest[i - 1] == dates[i];
      }
    }
  }

  /** A reply the scan reports is a message later than an email that was sent. */
  lemma ReplyFoundIsReply(found: seq<Fetch>, lastSent: Option<int>)
    requires Scan(found, lastSent) == ReplyFound
    ensures lastSent.Some? && IsReply(Dates(found), lastSent)
  {
    ScanFindsFirstReply(found, lastSent);
    var k :| 0 <= k < |found| && Qualifies(EffectiveDate(found[k]), lastSent)
      && forall j :: 0 <= j < k ==> !found[j].FetchRaised?;
    assert Dates(found)[k] == EffectiveDate(found[k]);
  }

  /** Before any email has been sent no message is a reply, whatever was fetched. */
  lemma {:induction false} NoReplyBeforeFirstSend(found: seq<Fetch>)
    ensures Scan(found, None) != ReplyFound
    ensures !IsReply(Dates(found), None)
  {
    if found != [] {
      NoReplyBeforeFirstSend(found[1..]);
    }
  }

  /** Skipping is not failing: dropping a message that neither raises nor qualifies leaves the verdict as it was. */
  lemma {:induction false} SkippedMessageIsIgnored(found: seq<Fetch>, i: nat, lastSent: Option<int>)
    requires i < |found| && !found[i].FetchRaised? && !Qualifies(EffectiveDate(found[i]), lastSent)
    ensures Scan(found[..i] + found[i + 1..], lastSent) == Scan(found, lastSent)
  {
    if i > 0 {
      SkippedMessageIsIgnored(found[1..], i - 1, lastSent);
      assert found[..i] + found[i + 1..] == [found[0]] + (found[1..][..i - 1] + found[1..][i..]);
    } else {
      assert found[..i] + found[i + 1..] == found[1..];
    }
  }

  /** Last send 2024-01-01 10:00:00, candidates dated 09:00 and 11:00 that day: the second is a reply. */
  lemma ReplyAfterLastSendScenario()
    ensures var found := [Fetched(Some(1704099600), true), Fetched(Some(1704106800), true)];
      Scan(found, Some(1704103200)) == ReplyFound && IsReply(Dates(found), Some(1704103200))
  {
    var found := [Fetched(Some(1704099600), true), Fetched(Some(1704106800), true)];
    assert Dates(found)[1] == Some(1704106800);
  }

  /** With nothing sent yet, a candidate dated 2024-01-01 11:00:00 is not a reply. */
  lemma NoSendNoReplyScenario()
    ensures Scan([Fetched(Some(1704106800), true)], None) == NoReply
  {
  }

  /** The loop of `check_for_replies` over the fetched messages, with its early exits. */
  method ScanFetched(found: seq<Fetch>, lastSent: Option<int>) returns (v: Verdict)
    ensures v == Scan(found, lastSent)
    ensures NoneRaised(found) ==> (v == ReplyFound <==> IsReply(Dates(found), lastSent))
  {
    if NoneRaised(found) {
      ScanDecidesIsReply(found, lastSent);
    }
    var i := 0;
    while i < |found|
      invariant 0 <= i <= |found|
      invariant Scan(found[i..], lastSent) == Scan(found, lastSent)
    {
      match found[i] {
        case FetchRaised =>
          return FetchFailed;
        case FetchNotOk =>
        case Fetched(date, subjectDecodes) =>
          if date.Some? && lastSent.Some? && date.value > lastSent.value && subjectDecodes {
            return ReplyFound;
          }
      }
      assert found[i..][1..] == found[i + 1..];
      i := i + 1;
    }
    return NoReply;
  }
}
