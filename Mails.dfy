/**
 * Listing the messages of one mailbox (src/models/Mail.ts): the header schema,
 * the splitting of recipients, and the accumulation of accepted messages while
 * the fetch stream delivers them.
 */
module Mails {
  import opened Outcomes
  import Text

  /** What the IMAP library's `parseHeader` yields: each (lower-case) field name with its values in order. */
  type RawHeader = map<string, seq<string>>

  /** A header that passed the schema: first `from`, all of `to`, first `subject`, first `date`. */
  datatype MailHeader = MailHeader(from: string, to: seq<string>, subject: string, date: string)

  /** The field is present with at least one value (`z.array(z.string()).min(1)`). */
  predicate Present(h: RawHeader, field: string)
  {
    field in h && |h[field]| >= 1
  }

  /**
   * `mailHeaderSchema.safeParse`: succeeds exactly when the four fields are present and
   * non-empty; `from`, `subject` and `date` keep their first value, `to` keeps them all,
   * and any other field is ignored.
   */
  function ValidateHeader(h: RawHeader): (r: Option<MailHeader>)
    ensures r.Some? <==> Present(h, "from") && Present(h, "to") && Present(h, "subject") && Present(h, "date")
    ensures r.Some? ==> r.value.from == h["from"][0] && r.value.subject == h["subject"][0]
                        && r.value.date == h["date"][0] && r.value.to == h["to"] && r.value.to != []
  {
    if Present(h, "from") && Present(h, "to") && Present(h, "subject") && Present(h, "date") then
      Some(MailHeader(h["from"][0], h["to"], h["subject"][0], h["date"][0]))
    else
      None
  }

  /** Fields outside the schema never change the outcome of validation. */
  lemma ValidateIgnoresOtherFields(h: RawHeader, field: string, values: seq<string>)
    requires field != "from" && field != "to" && field != "subject" && field != "date"
    ensures ValidateHeader(h[field := values]) == ValidateHeader(h)
  {
  }

  /** `.map((t) => t.trim())` over the pieces of one entry. */
  function TrimEach(pieces: seq<string>): (r: seq<string>)
    ensures |r| == |pieces|
    ensures forall k :: 0 <= k < |r| ==> r[k] == Text.Trim(pieces[k])
  {
    seq(|pieces|, k requires 0 <= k < |pieces| => Text.Trim(pieces[k]))
  }

  /**
   * The recipients of a message: every `to` entry split on ',' and each piece trimmed,
   * flattened in order. Empty pieces are kept, so there are at least as many recipients
   * as entries, and none contains a comma or starts or ends with white space.
   */
  function Recipients(to: seq<string>): (r: seq<string>)
    ensures |r| >= |to|
    ensures forall k :: 0 <= k < |r| ==> ',' !in r[k]
    ensures forall k :: 0 <= k < |r| && r[k] != [] ==>
              !Text.IsWhiteSpace(r[k][0]) && !Text.IsWhiteSpace(r[k][|r[k]| - 1])
  {
    if to == [] then []
    else
      var pieces := Text.Split(to[0], ',');
      var head := TrimEach(pieces);
      var rest := Recipients(to[1..]);
      assert forall k :: 0 <= k < |head| ==> ',' !in head[k] by {
        forall k | 0 <= k < |head| ensures ',' !in head[k] {
          assert ',' !in pieces[k];
        }
      }
      head + rest
  }

  /** Recipients are taken entry by entry, in order: splitting distributes over concatenation. */
  lemma {:induction false} RecipientsAppend(a: seq<string>, b: seq<string>)
    ensures Recipients(a + b) == Recipients(a) + Recipients(b)
  {
    if a != [] {
      assert (a + b)[0] == a[0];
      assert (a + b)[1..] == a[1..] + b;
      RecipientsAppend(a[1..], b);
      var head := TrimEach(Text.Split(a[0], ','));
      calc {
        Recipients(a + b);
        head + Recipients(a[1..] + b);
        head + (Recipients(a[1..]) + Recipients(b));
        (head + Recipients(a[1..])) + Recipients(b);
        Recipients(a) + Recipients(b);
      }
    } else {
      assert a + b == b;
    }
  }

  /** One entry yields one recipient per comma plus one, each the trimmed piece. */
  lemma RecipientsOfEntry(t: string)
    ensures Recipients([t]) == TrimEach(Text.Split(t, ','))
    ensures |Recipients([t])| == Text.Occurrences(t, ',') + 1
  {
    assert [t][1..] == [];
  }

  /** One message as the fetch stream delivers it: sequence number, body chunks, and the parsed header. */
  datatype FetchedMessage = FetchedMessage(seqno: int, chunks: seq<string>, header: RawHeader)

  /** A listed message; `date` is the raw header text later handed to `new Date`. */
  datatype Mail = Mail(id: int, from: string, to: seq<string>, subject: string, date: string, body: string)

  /** `buffer += chunk` over the whole stream. */
  function Concat(chunks: seq<string>): (body: string)
    ensures chunks == [] ==> body == ""
    ensures |chunks| == 1 ==> body == chunks[0]
  {
    if chunks == [] then "" else Concat(chunks[..|chunks| - 1]) + chunks[|chunks| - 1]
  }

  /** The body of two stretches of the stream is their bodies one after the other: no chunk is lost or reordered. */
  lemma {:induction false} ConcatAppend(a: seq<string>, b: seq<string>)
    ensures Concat(a + b) == Concat(a) + Concat(b)
    decreases |b|
  {
    if b != [] {
      ConcatAppend(a, b[..|b| - 1]);
      assert (a + b)[..|a + b| - 1] == a + b[..|b| - 1];
    } else {
      assert a + b == a;
    }
  }

  /** The Mail built from one message, if its header validates. */
  function Accept(m: FetchedMessage): (r: Option<Mail>)
    ensures r.Some? <==> ValidateHeader(m.header).Some?
    ensures r.Some? ==> r.value.id == m.seqno && r.value.body == Concat(m.chunks)
                        && r.value.from == m.header["from"][0] && r.value.subject == m.header["subject"][0]
                        && r.value.date == m.header["date"][0] && r.value.to == Recipients(m.header["to"])
  {
    match ValidateHeader(m.header)
    case None => None
    case Some(h) => Some(Mail(m.seqno, h.from, Recipients(h.to), h.subject, h.date, Concat(m.chunks)))
  }

  /** The mails collected from the stream: accepted messages in arrival order. */
  function Accepted(ms: seq<FetchedMessage>): (r: seq<Mail>)
    ensures |r| <= |ms|
  {
    if ms == [] then []
    else
      var last := Accept(ms[|ms| - 1]);
      Accepted(ms[..|ms| - 1]) + (if last.Some? then [last.value] else [])
  }

  /** Arrival order is kept: the collected mails of two stretches of stream are concatenated. */
  lemma {:induction false} AcceptedAppend(a: seq<FetchedMessage>, b: seq<FetchedMessage>)
    ensures Accepted(a + b) == Accepted(a) + Accepted(b)
    decreases |b|
  {
    if b == [] {
      assert a + b == a;
    } else {
      assert (a + b)[..|a + b| - 1] == a + b[..|b| - 1];
      AcceptedAppend(a, b[..|b| - 1]);
    }
  }

  /** Every collected mail was built from some delivered message whose header validates. */
  lemma {:induction false} AcceptedSound(ms: seq<FetchedMessage>, i: nat)
    requires i < |Accepted(ms)|
    ensures exists k :: 0 <= k < |ms| && Accept(ms[k]) == Some(Accepted(ms)[i])
  {
    var n := |ms| - 1;
    var front := ms[..n];
    if i < |Accepted(front)| {
      AcceptedSound(front, i);
      var k :| 0 <= k < |front| && Accept(front[k]) == Some(Accepted(front)[i]);
      assert ms[k] == front[k];
    } else {
      assert Accept(ms[n]) == Some(Accepted(ms)[i]);
    }
  }

  /** Every delivered message whose header validates is collected; exactly the others are dropped. */
  lemma {:induction false} AcceptedComplete(ms: seq<FetchedMessage>, k: nat)
    requires k < |ms| && ValidateHeader(ms[k].header).Some?
    ensures Accept(ms[k]).value in Accepted(ms)
  {
    var n := |ms| - 1;
    if k < n {
      AcceptedComplete(ms[..n], k);
      assert ms[..n][k] == ms[k];
    }
  }

  /** Dropping never fails the listing, and there are never more mails than messages. */
  lemma {:induction false} AcceptedLength(ms: seq<FetchedMessage>)
    ensures |Accepted(ms)| <= |ms|
    ensures (forall k :: 0 <= k < |ms| ==> ValidateHeader(ms[k].header).Some?) ==> |Accepted(ms)| == |ms|
  {
    if ms != [] {
      AcceptedLength(ms[..|ms| - 1]);
    }
  }

  /**
   * The accumulation the stream callbacks perform: each message's body chunks are
   * appended to a buffer, and when its body ends the header is validated and, on
   * success, the Mail is pushed.
   */
  method CollectMails(messages: seq<FetchedMessage>) returns (mails: seq<Mail>)
    ensures mails == Accepted(messages)
  {
    mails := [];
    for k := 0 to |messages|
      invariant mails == Accepted(messages[..k])
    {
      var m := messages[k];
      var buffer := "";
      for c := 0 to |m.chunks|
        invariant buffer == Concat(m.chunks[..c])
      {
        assert m.chunks[..c + 1][..c] == m.chunks[..c];
        buffer := buffer + m.chunks[c];
      }
      assert m.chunks[..|m.chunks|] == m.chunks;
      var parsed := ValidateHeader(m.header);
      if parsed.Some? {
        mails := mails + [Mail(m.seqno, parsed.value.from, Recipients(parsed.value.to),
                               parsed.value.subject, parsed.value.date, buffer)];
      }
      assert messages[..k + 1][..k] == messages[..k];
    }
    assert messages[..|messages|] == messages;
  }

  /** The IMAP sequence set fetched: "1:<limit>" with a limit, "1:*" without. */
  function FetchRange(limit: Option<int>): (r: string)
    ensures |r| >= 3 && r[..2] == "1:"
    ensures limit.None? <==> r == "1:*"
    ensures limit.Some? && limit.value >= 0 ==>
              (forall k :: 2 <= k < |r| ==> '0' <= r[k] <= '9') && Text.DigitsValue(r[2..]) == limit.value
  {
    if limit.Some? then
      var digits := Text.IntToString(limit.value);
      assert ("1:" + digits)[2..] == digits;
      "1:" + digits
    else "1:*"
  }

  /** The header fields requested for a listing. */
  const HeaderFields: string := "HEADER.FIELDS (FROM TO SUBJECT DATE)"

  /** A command issued to the IMAP handle. */
  datatype ImapCall =
    | OpenBox(name: string, readOnly: bool)
    | SeqFetch(range: string, bodies: string, markSeen: bool, struct: bool)

  /**
   * `Mail.getAll`. The session lookup, the handle's answer to opening the box and the
   * fetch stream are inputs: `sessionFound`, `openError` (the callback's error, if any)
   * and `fetched` (the messages in the order their bodies ended, or the stream's error).
   * It returns the commands issued and the settled outcome.
   */
  method GetAll(sessionFound: bool, box: Option<string>, limit: Option<int>,
                openError: Option<string>, fetched: Result<seq<FetchedMessage>>)
    returns (calls: seq<ImapCall>, r: Result<seq<Mail>>)
    ensures !sessionFound ==> calls == [] && r == Ok([])
    ensures sessionFound ==>
              calls == [OpenBox(if box.Some? then box.value else "INBOX", true),
                        SeqFetch(FetchRange(limit), HeaderFields, false, true)]
    ensures sessionFound && openError.Some? ==> r == Err(openError.value)
    ensures sessionFound && openError.None? && fetched.Err? ==> r == Err(fetched.message)
    ensures sessionFound && openError.None? && fetched.Ok? ==> r == Ok(Accepted(fetched.value))
  {
    if !sessionFound {
      return [], Ok([]);
    }
    var name := if box.Some? then box.value else "INBOX";
    calls := [OpenBox(name, true)];
    // The error is reported, but the fetch is still issued: the callback does not return.
    calls := calls + [SeqFetch(FetchRange(limit), HeaderFields, false, true)];
    if openError.Some? {
      r := Err(openError.value);
    } else if fetched.Err? {
      r := Err(fetched.message);
    } else {
      var mails := CollectMails(fetched.value);
      r := Ok(mails);
    }
  }
}
