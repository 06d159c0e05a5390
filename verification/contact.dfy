/**
 * The contact form's submit handler: it refuses to go on unless name, email, subject and
 * message are all non-empty, and otherwise builds a `mailto:` URI (section 2 of RFC 6068)
 * whose `subject` and `body` header fields are percent-encoded with `encodeURIComponent`.
 */
module Contact {
  import opened Wrappers
  import opened UriComponent

  /** The recipient's address followed by the opening of the `subject` field. */
  const MailtoHead: string := "mailto:loh197452@gmail.com?subject="
  const BodyField: string := "&body="
  /** Delay before the mail client is opened. */
  const OpenDelay := 1000

  /** The form's entries by field name, as `Object.fromEntries(new FormData(form))` gives them. */
  type FormData = map<string, string>

  const RequiredFields: seq<string> := ["name", "email", "subject", "message"]

  datatype NoticeKind = Info | Success | Error
  datatype Notice = Notice(message: string, kind: NoticeKind)

  datatype Submission =
    | Rejected(notice: Notice)
    | Accepted(notice: Notice, mailto: string, delay: int)

  /** JavaScript truthiness of `data[key]`: present and not the empty string. */
  predicate Filled(data: FormData, key: string) {
    key in data && data[key] != ""
  }

  /** Every required field is filled; whitespace alone counts as filled. */
  predicate AllFilled(data: FormData) {
    forall f :: f in RequiredFields ==> Filled(data, f)
  }

  lemma AllFilledFields(data: FormData)
    ensures AllFilled(data) <==>
      Filled(data, "name") && Filled(data, "email") && Filled(data, "subject") && Filled(data, "message")
  {
    assert RequiredFields[0] == "name" && RequiredFields[1] == "email";
    assert RequiredFields[2] == "subject" && RequiredFields[3] == "message";
  }

  /** The message body: name and email on their own lines, a blank line, then the message. */
  function Body(name: string, email: string, message: string): string {
    "Name: " + name + "\n" + "Email: " + email + "\n\n" + message
  }

  /** The link the handler opens: both fields go through `encodeURIComponent`. */
  function MailtoLink(subject: string, body: string): string {
    MailtoHead + (Encode(subject) + BodyField + Encode(body))
  }

  /**
   * The link's shape: the fixed head, then the escaped subject, `&body=` and the escaped body,
   * where both escaped parts hold only unreserved characters and `%XY` triplets; so, by
   * `WellEscapedAlphabet`, no raw space, line break, `&` or `?` of the user's text reaches the link.
   */
  lemma MailtoLinkEscaped(subject: string, body: string)
    ensures var es, eb := Encode(subject), Encode(body);
      && MailtoLink(subject, body) == MailtoHead + es + BodyField + eb
      && WellEscaped(es) && WellEscaped(eb)
  {
    EncodeWellEscaped(subject);
    EncodeWellEscaped(body);
    Reassociate(MailtoHead, Encode(subject), BodyField, Encode(body));
  }

  lemma Reassociate(a: string, b: string, c: string, d: string)
    ensures a + (b + c + d) == a + b + c + d
  {
  }

  /** The submit handler (the form's own submission is always prevented). */
  function Submit(data: FormData): (r: Submission)
    ensures r.Accepted? <==> AllFilled(data)
    ensures r.Rejected? ==> r.notice == Notice("Please fill in all fields", Error)
    ensures r.Accepted? ==>
      && "name" in data && "email" in data && "subject" in data && "message" in data
      && r.notice == Notice("Opening your email app…", Success)
      && r.delay == OpenDelay
      && r.mailto == MailtoLink(data["subject"], Body(data["name"], data["email"], data["message"]))
      && ParseMailto(r.mailto) == Some(Mail(data["subject"], Body(data["name"], data["email"], data["message"])))
  {
    AllFilledFields(data);
    if !Filled(data, "name") || !Filled(data, "email") || !Filled(data, "subject") || !Filled(data, "message") then
      Rejected(Notice("Please fill in all fields", Error))
    else
      var body := Body(data["name"], data["email"], data["message"]);
      MailtoRoundTrip(data["subject"], body);
      Accepted(Notice("Opening your email app…", Success), MailtoLink(data["subject"], body), OpenDelay)
  }

  // ---------------------------------------------------------------------------
  // Reading a link back

  datatype Mail = Mail(subject: string, body: string)

  /** The first position of `c` in `s`. */
  function IndexOf(s: string, c: char): (r: Option<nat>)
    ensures r.None? <==> c !in s
    ensures r.Some? ==> r.value < |s| && s[r.value] == c && c !in s[..r.value]
  {
    if s == [] then None
    else if s[0] == c then Some(0)
    else match IndexOf(s[1..], c)
      case None => None
      case Some(k) => assert s[..k + 1] == [s[0]] + s[1..][..k]; Some(k + 1)
  }

  /** Splits a link to the recipient at its `subject` and `body` fields and decodes both. */
  function ParseMailto(link: string): Option<Mail> {
    if |link| < |MailtoHead| || link[..|MailtoHead|] != MailtoHead then None
    else ParseQuery(link[|MailtoHead|..])
  }

  /** The query after `?subject=`: the subject runs up to the first `&`, which opens `&body=`. */
  function ParseQuery(query: string): Option<Mail> {
    match IndexOf(query, '&')
    case None => None
    case Some(k) =>
      var tail := query[k..];
      if |tail| < |BodyField| || tail[..|BodyField|] != BodyField then None
      else
        match (Decode(query[..k]), Decode(tail[|BodyField|..]))
        case (Some(subject), Some(body)) => Some(Mail(subject, body))
        case _ => None
  }

  lemma SplitQuery(es: string, eb: string)
    requires '&' !in es
    ensures ParseQuery(es + BodyField + eb) == match (Decode(es), Decode(eb))
      case (Some(subject), Some(body)) => Some(Mail(subject, body))
      case _ => None
  {
    assert BodyField[0] == '&';
    Regroup(es, BodyField, eb);
    IndexOfAfter(es, '&', BodyField[1..] + eb);
    DropPrefix(BodyField, eb);
  }

  lemma Regroup(a: string, m: string, b: string)
    requires m != []
    ensures a + m + b == a + [m[0]] + (m[1..] + b)
    ensures (a + m + b)[..|a|] == a && (a + m + b)[|a|..] == m + b
  {
    assert m == [m[0]] + m[1..];
  }

  lemma QueryRoundTrip(subject: string, body: string)
    ensures ParseQuery(Encode(subject) + BodyField + Encode(body)) == Some(Mail(subject, body))
  {
    EncodeWellEscaped(subject);
    WellEscapedAlphabet(Encode(subject));
    SplitQuery(Encode(subject), Encode(body));
    DecodeEncode(subject);
    DecodeEncode(body);
  }

  /**
   * Round trip: the link names the recipient, and its `subject` and `body` fields decode
   * to exactly the subject and body that went in, whatever characters they hold.
   */
  lemma MailtoRoundTrip(subject: string, body: string)
    ensures ParseMailto(MailtoLink(subject, body)) == Some(Mail(subject, body))
  {
    DropPrefix(MailtoHead, Encode(subject) + BodyField + Encode(body));
    QueryRoundTrip(subject, body);
  }

  lemma DropPrefix(a: string, b: string)
    ensures (a + b)[..|a|] == a && (a + b)[|a|..] == b
  {
  }

  lemma {:induction false} IndexOfAfter(a: string, c: char, b: string)
    requires c !in a
    ensures IndexOf(a + [c] + b, c) == Some(|a|)
  {
    if a != [] {
      assert (a + [c] + b)[1..] == a[1..] + [c] + b;
      IndexOfAfter(a[1..], c, b);
    }
  }
}
