/**
  The webhook handler of the Git issue notifier: on an "opened" issue event
  whose reporter is not an organisation member it emails a notice to the
  configured recipients.

  The outbound calls are not performed here. The membership lookup is a
  parameter that maps a user name to the outcome of the HTTP call (a status
  code, or a transport failure), and the handler's effect is the sequence of
  outbound calls it makes, in order.
 */
module NotificationService {
  import opened Json
  import opened JavaText
  import opened FieldExtraction

  /** What the membership HTTP call came back with. */
  datatype MemberCallOutcome = Status(code: int) | TransportError

  /**
    `isMember`: only status 204 (No Content) confirms membership; a failed call
    counts as membership too, so that a failure suppresses the notice.
   */
  function IsMember(outcome: MemberCallOutcome): bool
  {
    match outcome
    case Status(code) => code == 204
    case TransportError => true
  }

  /** The notice handed to the mail service. */
  datatype Mail = Mail(sender: string, recipients: seq<string>, subject: string, contentType: string, content: string)

  /** One outbound call of the handler. */
  datatype Call = QueryMembership(user: string) | SendMail(mail: Mail)

  /**
    The recipient list taken from the `to` parameter: spaces removed, then
    split on commas with Java's rules. No recipient holds a space or a comma,
    and joining them with commas gives the space-free parameter back, short of
    the trailing commas whose empty fields the split discards.
   */
  function Recipients(to: string): (rs: seq<string>)
    ensures forall i :: 0 <= i < |rs| ==> ' ' !in rs[i] && ',' !in rs[i]
    ensures Join(rs, ',') == DropTrailing(RemoveAll(to, ' '), ',')
    ensures ',' !in to ==> rs == [RemoveAll(to, ' ')]
  {
    var compact := RemoveAll(to, ' ');
    var rs := Split(compact, ',');
    rs
  }

  const SubjectPrefix: string := "[Git-Issue] New git issue #"
  const SubjectSuffix: string := " from non member"

  /** The issue number read back out of a subject line, if it has the notice's shape. */
  function IssueNumberOf(subject: string): Option<string>
  {
    if |subject| >= |SubjectPrefix| + |SubjectSuffix|
       && subject[..|SubjectPrefix|] == SubjectPrefix
       && subject[|subject| - |SubjectSuffix|..] == SubjectSuffix
    then Some(subject[|SubjectPrefix|..|subject| - |SubjectSuffix|])
    else None
  }

  /** `getSubject`: the fixed notice subject carrying the issue number, which reads back intact. */
  function Subject(data: Json): (s: string)
    ensures IssueNumberOf(s) == Some(ValueAt(NumberKey, data))
  {
    var number := ValueAt(NumberKey, data);
    var s := SubjectPrefix + number + SubjectSuffix;
    assert s[..|SubjectPrefix|] == SubjectPrefix;
    assert s[|s| - |SubjectSuffix|..] == SubjectSuffix;
    assert s[|SubjectPrefix|..|s| - |SubjectSuffix|] == number;
    s
  }

  const ContentHead: string := "<html><body>  <div><code>Issue: "
  const ContentAfterTitle: string := "</code></div>  <div><code>Reporter: "
  const ContentAfterReporter: string := "</code></div>  <div><code>Link: "
  const ContentTail: string := "</code></div></body></html>"

  /** `piece` occurs in `text` starting at offset `at`. */
  predicate OccursAt(text: string, at: int, piece: string)
  {
    0 <= at && at + |piece| <= |text| && forall t :: 0 <= t < |piece| ==> text[at + t] == piece[t]
  }

  /** `a`, `b` and `c` occur in `text` in that order, without overlapping. */
  ghost predicate InOrder(text: string, a: string, b: string, c: string)
  {
    exists i, j, k :: OccursAt(text, i, a) && OccursAt(text, j, b) && OccursAt(text, k, c)
                      && i + |a| <= j && j + |b| <= k
  }

  /** Three values spliced between four fixed pieces of text, as a `%s` template fills them. */
  function Fill(head: string, a: string, m1: string, b: string, m2: string, c: string, tail: string): (text: string)
    ensures InOrder(text, a, b, c)
    ensures OccursAt(text, 0, head)
    ensures OccursAt(text, |text| - |tail|, tail)
  {
    var text := head + a + m1 + b + m2 + c + tail;
    var i := |head|;
    var j := i + |a| + |m1|;
    var k := j + |b| + |m2|;
    assert OccursAt(text, i, a);
    assert OccursAt(text, j, b);
    assert OccursAt(text, k, c);
    text
  }

  /**
    `getContent`: an HTML document that shows the issue title, the reporter
    and the issue link, in that order.
   */
  function Content(data: Json): (html: string)
    ensures InOrder(html, ValueAt(TitleKey, data), ValueAt(ReporterKey, data), ValueAt(UrlKey, data))
  {
    Fill(ContentHead, ValueAt(TitleKey, data), ContentAfterTitle, ValueAt(ReporterKey, data),
         ContentAfterReporter, ValueAt(UrlKey, data), ContentTail)
  }

  /** The body always opens with the fixed document head and closes with the fixed tail. */
  lemma ContentFraming(data: Json)
    ensures OccursAt(Content(data), 0, ContentHead)
    ensures OccursAt(Content(data), |Content(data)| - |ContentTail|, ContentTail)
  {
  }

  /** The notice `sendEmail` builds: one recipient per parsed address, the subject and the HTML body. */
  function ComposeMail(data: Json, sender: string, to: string): (mail: Mail)
    ensures mail.sender == sender && mail.contentType == "text/html"
    ensures forall i :: 0 <= i < |mail.recipients| ==> ' ' !in mail.recipients[i] && ',' !in mail.recipients[i]
    ensures Join(mail.recipients, ',') == DropTrailing(RemoveAll(to, ' '), ',')
    ensures ',' !in to ==> mail.recipients == [RemoveAll(to, ' ')]
    ensures IssueNumberOf(mail.subject) == Some(ValueAt(NumberKey, data))
    ensures InOrder(mail.content, ValueAt(TitleKey, data), ValueAt(ReporterKey, data), ValueAt(UrlKey, data))
  {
    Mail(sender, Recipients(to), Subject(data), "text/html", Content(data))
  }

  /** The mails among the outbound calls, in order. */
  function Mails(calls: seq<Call>): (ms: seq<Mail>)
    ensures |ms| <= |calls|
    ensures forall m :: m in ms ==> SendMail(m) in calls
    ensures forall i :: 0 <= i < |calls| && calls[i].SendMail? ==> calls[i].mail in ms
  {
    if |calls| == 0 then []
    else
      var rest := Mails(calls[1..]);
      assert forall c :: c in calls[1..] ==> c in calls;
      assert forall i :: 1 <= i < |calls| ==> calls[i] == calls[1..][i - 1];
      (if calls[0].SendMail? then [calls[0].mail] else []) + rest
  }

  /**
    `post`: the outbound calls one webhook delivery causes. Nothing at all
    happens unless the action is exactly "opened"; then membership of the
    reporter is queried, and a single notice is sent exactly when the
    reporter is not a member.
   */
  function Post(data: Json, membership: string -> MemberCallOutcome, sender: string, to: string): (calls: seq<Call>)
    ensures calls == [] <==> ValueAt(ActionKey, data) != "opened"
    ensures calls != [] ==> calls[0] == QueryMembership(ValueAt(ReporterKey, data))
    ensures forall i :: 0 < i < |calls| ==> calls[i].SendMail?
    ensures |Mails(calls)| == 1 <==>
              ValueAt(ActionKey, data) == "opened" && !IsMember(membership(ValueAt(ReporterKey, data)))
    ensures |Mails(calls)| <= 1
    ensures forall m :: m in Mails(calls) ==> m == ComposeMail(data, sender, to)
  {
    if ValueAt(ActionKey, data) != "opened" then []
    else
      var reporter := ValueAt(ReporterKey, data);
      if IsMember(membership(reporter)) then
        var calls := [QueryMembership(reporter)];
        MailsOfQuery(reporter);
        calls
      else
        var mail := ComposeMail(data, sender, to);
        var calls := [QueryMembership(reporter), SendMail(mail)];
        MailsOfQueryThenSend(reporter, mail);
        calls
  }

  lemma MailsOfQuery(user: string)
    ensures Mails([QueryMembership(user)]) == []
  {
  }

  lemma MailsOfQueryThenSend(user: string, mail: Mail)
    ensures Mails([QueryMembership(user), SendMail(mail)]) == [mail]
  {
  }

  /** `isMember` confirms membership on status 204 and on a failed call, and on nothing else. */
  lemma MembershipOutcomes(outcome: MemberCallOutcome)
    ensures IsMember(outcome) <==> outcome == Status(204) || outcome == TransportError
  {
  }

  /**
    The membership lookup is consulted only after the action check passes:
    for any other action the handler's calls do not depend on it.
   */
  lemma MembershipIrrelevantUnlessOpened(data: Json, m1: string -> MemberCallOutcome,
                                         m2: string -> MemberCallOutcome, sender: string, to: string)
    requires ValueAt(ActionKey, data) != "opened"
    ensures Post(data, m1, sender, to) == Post(data, m2, sender, to) == []
  {
  }

  /** A payload without an action member is not acted upon: extraction yields "" there. */
  lemma MissingActionDoesNothing(data: Json, membership: string -> MemberCallOutcome, sender: string, to: string)
    requires data.Obj? && ActionKey !in data.fields
    ensures Post(data, membership, sender, to) == []
  {
    ActionKeySegments();
  }

  /** A failed membership call always suppresses the notice (the handler fails safe). */
  lemma TransportErrorSuppressesMail(data: Json, membership: string -> MemberCallOutcome, sender: string, to: string)
    requires membership(ValueAt(ReporterKey, data)) == TransportError
    ensures Mails(Post(data, membership, sender, to)) == []
  {
  }

  /** Addresses free of spaces and commas survive the round trip through a comma-joined `to`. */
  lemma RecipientsOfJoin(addresses: seq<string>)
    requires |addresses| >= 1
    requires forall i :: 0 <= i < |addresses| ==> ' ' !in addresses[i] && ',' !in addresses[i]
    requires |addresses| == 1 || addresses[|addresses| - 1] != ""
    ensures Recipients(Join(addresses, ',')) == addresses
  {
    JoinFree(addresses, ',', ' ');
    SplitJoin(addresses, ',');
  }

  /** An "opened" issue event as the hosting platform delivers it (only the members read here). */
  const OpenedIssueEvent: Json :=
    Obj(map[
      "action" := Str("opened"),
      "issue" := Obj(map[
        "user" := Obj(map["login" := Str("alice")]),
        "number" := Num("42"),
        "html_url" := Str("http://x/42"),
        "title" := Str("Bug")]),
      "repository" := Obj(map["name" := Str("r"), "full_name" := Str("org/r")])])

  /** The fields the handler reads from that event. */
  lemma OpenedIssueEventAction()
    ensures ValueAt(ActionKey, OpenedIssueEvent) == "opened"
  {
    assert Resolve(["action"], OpenedIssueEvent) == Some(Str("opened"));
    ActionKeySegments();
  }

  lemma OpenedIssueEventReporter()
    ensures ValueAt(ReporterKey, OpenedIssueEvent) == "alice"
  {
    var issue := OpenedIssueEvent.fields["issue"];
    var user := issue.fields["user"];
    assert Resolve(["login"], user) == Some(Str("alice"));
    assert Resolve(["user", "login"], issue) == Some(Str("alice"));
    assert Resolve(["issue", "user", "login"], OpenedIssueEvent) == Some(Str("alice"));
    ReporterKeySegments();
  }

  lemma OpenedIssueEventNumber()
    ensures ValueAt(NumberKey, OpenedIssueEvent) == "42"
  {
    var issue := OpenedIssueEvent.fields["issue"];
    assert Resolve(["number"], issue) == Some(Num("42"));
    assert Resolve(["issue", "number"], OpenedIssueEvent) == Some(Num("42"));
    NumberKeySegments();
  }

  /**
    The delivery of that event by a non-member (the lookup answers 404 for
    the reporter): one membership query for the reporter, then exactly one
    notice, to the single recipient, with the issue number in the subject.
   */
  lemma OpenedByNonMember(data: Json, membership: string -> MemberCallOutcome, sender: string, to: string)
    requires data == OpenedIssueEvent && to == "a@b.com"
    requires membership("alice") == Status(404)
    ensures var calls := Post(data, membership, sender, to);
      && calls != []
      && calls[0] == QueryMembership("alice")
      && |Mails(calls)| == 1
      && Mails(calls)[0].recipients == ["a@b.com"]
      && IssueNumberOf(Mails(calls)[0].subject) == Some("42")
  {
    assert ' ' !in to && ',' !in to;
    assert Recipients(to) == [to];
    OpenedIssueEventAction();
    OpenedIssueEventReporter();
    OpenedIssueEventNumber();
    var calls := Post(data, membership, sender, to);
    assert Mails(calls)[0] in Mails(calls);
  }
}
