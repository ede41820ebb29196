/** The contact form's submit handler: compose a `mailto` URI (section 2 of
    RFC 6068) whose `subject` and `body` header fields are built from the
    form's name, email, service and message. The percent-encoder
    (`encodeURIComponent`) is a parameter. */
module ContactForm {
  import opened Values
  import opened Strings

  /** `Object.fromEntries(new FormData(form))`: each field may be absent. */
  datatype FormData = FormData(
    name: Option<string>,
    email: Option<string>,
    service: Option<string>,
    message: Option<string>)

  const Recipient := "info@clientfirstdigital.com"
  const SubjectLead := "New enquiry: "

  /** `New enquiry: ${service || 'General'}`. */
  function Subject(service: Option<string>): string
  {
    SubjectLead + OrDefault(service, "General")
  }

  /** The six body lines; a missing field becomes `''`. */
  function BodyLines(f: FormData): seq<string>
  {
    [ "Name: " + OrDefault(f.name, ""),
      "Email: " + OrDefault(f.email, ""),
      "Service: " + OrDefault(f.service, ""),
      "",
      "Message:",
      OrDefault(f.message, "") ]
  }

  function Body(f: FormData): string
  {
    Join(BodyLines(f), '\n')
  }

  /** The URI the handler assigns to `window.location.href`. */
  function MailtoUri(f: FormData, encode: string -> string): string
  {
    "mailto:" + Recipient + "?subject=" + encode(Subject(f.service)) + "&body=" + encode(Body(f))
  }

  /** The parts a mail client reads back from such a URI. */
  datatype Mailto = Mailto(to: string, subject: string, body: string)

  /** Reads `mailto:<to>?subject=<s>&body=<b>` (exactly those two header
      fields, in that order). */
  function ParseMailto(uri: string): Option<Mailto>
  {
    if !("mailto:" <= uri) then None
    else
      var halves := Split(uri[7..], '?');
      if |halves| != 2 then None
      else
        var fields := Split(halves[1], '&');
        if |fields| != 2 || !("subject=" <= fields[0]) || !("body=" <= fields[1]) then None
        else Some(Mailto(halves[0], fields[0][8..], fields[1][5..]))
  }

  /** The subject names the service, or `General` when it is missing or empty. */
  lemma SubjectNamesService(service: Option<string>)
    ensures var s := Subject(service);
      && SubjectLead <= s
      && s[|SubjectLead|..] == (if service.Some? && service.value != "" then service.value else "General")
  {
  }

  /** Any recipient without `?` and header values without `&` or `?` parse
      back from the URI built around them. */
  lemma ParseMailtoBuilt(to: string, subject: string, body: string)
    requires '?' !in to
    requires '&' !in subject && '?' !in subject
    requires '&' !in body && '?' !in body
    ensures ParseMailto("mailto:" + to + "?subject=" + subject + "&body=" + body) ==
      Some(Mailto(to, subject, body))
  {
    var q1, q2 := "subject=" + subject, "body=" + body;
    var query := q1 + ['&'] + q2;
    var uri := "mailto:" + to + "?subject=" + subject + "&body=" + body;
    assert '&' !in q1 && '&' !in q2;
    assert '?' !in q1 && '?' !in q2;
    assert '?' !in query;
    assert uri[7..] == to + ['?'] + query;
    SplitPair(to, query, '?');
    SplitPair(q1, q2, '&');
    assert q1[8..] == subject && q2[5..] == body;
  }

  /** For an encoder that escapes `&` and `?` (as `encodeURIComponent`
      does), the URI parses back to the recipient and the two encoded
      header fields. */
  lemma MailtoRoundTrip(f: FormData, encode: string -> string)
    requires forall s :: '&' !in encode(s) && '?' !in encode(s)
    ensures ParseMailto(MailtoUri(f, encode)) ==
      Some(Mailto(Recipient, encode(Subject(f.service)), encode(Body(f))))
  {
    var es, eb := encode(Subject(f.service)), encode(Body(f));
    assert '?' !in Recipient;
    ParseMailtoBuilt(Recipient, es, eb);
  }

  /** When name, email and service are single lines, splitting the body at
      line breaks gives the five fixed lines followed by the message's own
      lines. */
  lemma BodyLinesRecovered(f: FormData)
    requires '\n' !in OrDefault(f.name, "")
    requires '\n' !in OrDefault(f.email, "")
    requires '\n' !in OrDefault(f.service, "")
    ensures Split(Body(f), '\n') == BodyLines(f)[..5] + Split(OrDefault(f.message, ""), '\n')
  {
    var lines := BodyLines(f);
    var head := lines[..5];
    assert forall k :: 0 <= k < |"Name: " + OrDefault(f.name, "")| ==> lines[0][k] != '\n';
    assert forall k :: 0 <= k < |"Email: " + OrDefault(f.email, "")| ==> lines[1][k] != '\n';
    assert forall k :: 0 <= k < |"Service: " + OrDefault(f.service, "")| ==> lines[2][k] != '\n';
    assert forall p :: p in head ==> '\n' !in p;
    assert lines == head + [lines[5]];
    JoinSnoc(head, lines[5], '\n');
    SplitAround(Join(head, '\n'), lines[5], '\n');
    SplitJoin(head, '\n');
  }
}
