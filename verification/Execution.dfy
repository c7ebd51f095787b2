/** One execution of a rule: what the SMTP server says about a message (app/mailer.py), what
    the executor makes of it (app/executor.py), and the retry loop around it
    (app/execution_service.py). Everything outside, from the database to the mail server, is
    given by the environment of an attempt. */
module Executions {
  import opened Outcomes
  import opened Text
  import opened Suppressions

  // ----- mailer -----

  datatype Message = Message(recipients: seq<string>, ccRecipients: seq<string>, subject: string, htmlBody: string)
  {
    function Addresses(): seq<string> { recipients + ccRecipients }
  }

  datatype SmtpReply =
    | HeaderError                     // building the MIME message raises, before the try
    | NoClient                        // the client factory raises
    | SendError                       // sendmail raises: nobody accepted
    | Replied(refused: set<string>)

  datatype SendResult = SendResult(success: bool, partialSuccess: bool)

  /** The addresses the server accepted the message for. */
  function Accepted(message: Message, reply: SmtpReply): seq<string> {
    if reply.Replied? then Kept(message.Addresses(), reply.refused) else []
  }

  function Kept(addresses: seq<string>, refused: set<string>): seq<string> {
    if addresses == [] then []
    else if addresses[0] in refused then Kept(addresses[1..], refused)
    else [addresses[0]] + Kept(addresses[1..], refused)
  }

  lemma {:induction false} KeptSome(addresses: seq<string>, refused: set<string>)
    ensures Kept(addresses, refused) != [] <==> exists i :: 0 <= i < |addresses| && addresses[i] !in refused
  {
    if addresses != [] && addresses[0] in refused {
      KeptSome(addresses[1..], refused);
      assert forall i :: 0 < i < |addresses| ==> addresses[i] == addresses[1..][i - 1];
    }
  }

  /** Nobody is left out, added or asked twice: those who are not refused, each as often as addressed. */
  lemma {:induction false} KeptCounts(addresses: seq<string>, refused: set<string>, a: string)
    ensures multiset(Kept(addresses, refused))[a] == if a in refused then 0 else multiset(addresses)[a]
  {
    if addresses != [] {
      KeptCounts(addresses[1..], refused, a);
      assert addresses == [addresses[0]] + addresses[1..];
    }
  }

  lemma {:induction false} KeptAll(addresses: seq<string>)
    ensures Kept(addresses, {}) == addresses
  {
    if addresses != [] {
      KeptAll(addresses[1..]);
    }
  }

  /** A message that nobody refuses reaches its recipients and its cc recipients, in this order. */
  lemma MessageReachesAll(message: Message)
    ensures var d := Deliveries(message, Replied({}));
      && |d| == |message.recipients| + |message.ccRecipients|
      && (forall i :: 0 <= i < |message.recipients| ==> d[i] == Delivery(message.recipients[i], message))
      && (forall i :: 0 <= i < |message.ccRecipients| ==>
          d[|message.recipients| + i] == Delivery(message.ccRecipients[i], message))
  {
    KeptAll(message.Addresses());
  }

  /** A mail in somebody's box. */
  datatype Delivery = Delivery(address: string, message: Message)

  function DeliveriesTo(addresses: seq<string>, message: Message): seq<Delivery> {
    seq(|addresses|, i requires 0 <= i < |addresses| => Delivery(addresses[i], message))
  }

  function Deliveries(message: Message, reply: SmtpReply): (d: seq<Delivery>)
    ensures d == [] <==> Accepted(message, reply) == []
  {
    DeliveriesTo(Accepted(message, reply), message)
  }

  lemma {:induction false} DeliveriesCount(addresses: seq<string>, message: Message, a: string)
    ensures multiset(DeliveriesTo(addresses, message))[Delivery(a, message)] == multiset(addresses)[a]
  {
    var all := DeliveriesTo(addresses, message);
    if addresses != [] {
      DeliveriesCount(addresses[1..], message, a);
      assert all == [Delivery(addresses[0], message)] + DeliveriesTo(addresses[1..], message);
      assert addresses == [addresses[0]] + addresses[1..];
    }
  }

  /** Who gets the mail, as often as addressed: with no answer from the server nobody, otherwise all
      whom it does not refuse; and nobody gets another mail. */
  lemma DeliveredExactlyIfAccepted(message: Message, reply: SmtpReply, a: string)
    ensures multiset(Deliveries(message, reply))[Delivery(a, message)] ==
      if reply.Replied? && a !in reply.refused then multiset(message.recipients + message.ccRecipients)[a] else 0
    ensures forall d :: d in Deliveries(message, reply) ==> d.message == message
  {
    DeliveriesCount(Accepted(message, reply), message, a);
    if reply.Replied? {
      KeptCounts(message.Addresses(), reply.refused, a);
    }
  }

  /** The mail server, with everything it ever accepted. */
  class MailServer {
    var delivered: seq<Delivery>

    /** sendmail, as far as it returns. */
    method SendMail(message: Message, refused: set<string>)
      modifies this
      ensures delivered == old(delivered) + Deliveries(message, Replied(refused))
    {
      delivered := delivered + Deliveries(message, Replied(refused));
    }
  }

  class SmtpClient {
    var open: bool
    constructor () ensures open { open := true; }
    method Close()
      modifies this
      ensures !open
    {
      open := false;
    }
  }

  /** SmtpMailer.send: `raised` only for errors before the try; whatever client was made is closed. */
  method Send(server: MailServer, message: Message, reply: SmtpReply)
      returns (raised: bool, result: SendResult, client: SmtpClient?)
    modifies server
    ensures server.delivered == old(server.delivered) + Deliveries(message, reply)
    ensures raised <==> reply.HeaderError?
    ensures client != null ==> fresh(client) && !client.open
    ensures client != null <==> reply.SendError? || reply.Replied?
    ensures result.success <==> reply.Replied? && reply.refused == {}
    ensures result.partialSuccess ==> !result.success && Accepted(message, reply) != []
    ensures Accepted(message, reply) != [] ==> result.success || result.partialSuccess
    ensures result == Classified(message, reply)
  {
    raised, client, result := false, null, SendResult(false, false);
    if reply.HeaderError? {
      return true, result, null;
    }
    if reply.NoClient? {
      return;
    }
    client := new SmtpClient();
    if reply.Replied? {
      server.SendMail(message, reply.refused);
      if reply.refused != {} {
        var addresses := message.Addresses();
        var partial := false;
        for i := 0 to |addresses|
          invariant partial <==> exists j :: 0 <= j < i && addresses[j] !in reply.refused
        {
          if addresses[i] !in reply.refused {
            partial := true;
          }
        }
        KeptSome(addresses, reply.refused);
        result := SendResult(false, partial);
      } else {
        result := SendResult(true, false);
      }
    }
    client.Close();
  }

  /** What the executor is told about a message. */
  function Classified(message: Message, reply: SmtpReply): SendResult {
    if reply.Replied? && reply.refused == {} then SendResult(true, false)
    else SendResult(false, Accepted(message, reply) != [])
  }

  // ----- executor -----

  datatype Status = Running | Success | Failed | PartialFailed

  datatype SendMode = Summary | PerRow

  datatype Rule = Rule(
    sendMode: SendMode,
    recipients: string,
    ccRecipients: string,
    dynamicRecipientField: string,
    dynamicCcField: string)

  datatype Rendered = Rendered(subject: string, htmlBody: string)

  /** What a template is rendered with: all rows of the mail, or one of them among the others. */
  datatype TemplateInput = AllRows(rows: seq<Row>) | OneRow(rows: seq<Row>, index: nat)

  /** What one attempt meets outside. */
  datatype Environment = Environment(
    now: int,                                   // the clock when the row filter is made
    setup: Result<()>,                          // configuration and clients
    sqlCheck: Result<()>,
    query: Result<seq<Row>>,
    sqlstate: string,                           // of a query that raised
    lookup: Result<()>,                         // of suppression records
    renderings: map<TemplateInput, Result<Rendered>>,
    replies: seq<SmtpReply>)                    // of the mail server, in order of sending
  {
    function Rendering(input: TemplateInput): Result<Rendered> {
      if input in renderings then renderings[input] else Err("TemplateError")
    }

    function Reply(i: nat): SmtpReply {
      if i < |replies| then replies[i] else SendError
    }
  }

  datatype MailResult = MailResult(message: Message, result: SendResult)

  datatype ExecutionResult = ExecutionResult(
    status: Status,
    rowCount: nat,
    mailCount: nat,
    errorType: string,
    retryNote: nat,                             // the number in the suffix about retries, 0 for no suffix
    mailResults: seq<MailResult>,
    sqlstate: string)

  function ParseRecipients(value: string): seq<string> {
    StrippedNonEmpty(Split(value, {',', ';'}))
  }

  /** Commas and semicolons separate addresses. */
  lemma RecipientsAreSeparated(a: string, c: char, b: string)
    requires c == ',' || c == ';'
    ensures ParseRecipients(a + [c] + b) == ParseRecipients(a) + ParseRecipients(b)
  {
    SplitAt(a, c, b, {',', ';'});
    StrippedConcat(Split(a, {',', ';'}), Split(b, {',', ';'}));
  }

  /** Between them stands one address, or none if there is nothing but space. */
  lemma OneRecipient(s: string)
    requires ',' !in s && ';' !in s
    ensures ParseRecipients(s) == if Strip(s) == "" then [] else [Strip(s)]
  {
    SplitNone(s, {',', ';'});
    assert [s][1..] == [] && StrippedNonEmpty([s][1..]) == [];
    assert [Strip(s)] + [] == [Strip(s)];
  }

  function RowRecipients(row: Row, field: string): seq<string> {
    if field == "" || field !in row || row[field].None? then [] else ParseRecipients(row[field].value)
  }

  function Choose(first: seq<string>, otherwise: seq<string>): seq<string> {
    if first != [] then first else otherwise
  }

  function MessageForRow(rule: Rule, rendering: Result<Rendered>, row: Row): Result<Message> {
    match rendering
    case Err(e) => Err(e)
    case Ok(rendered) =>
      var recipients := Choose(RowRecipients(row, rule.dynamicRecipientField), ParseRecipients(rule.recipients));
      if recipients == [] then Err("ValueError")
      else
        var cc := Choose(RowRecipients(row, rule.dynamicCcField), ParseRecipients(rule.ccRecipients));
        Ok(Message(recipients, cc, rendered.subject, rendered.htmlBody))
  }

  function SummaryMessage(rule: Rule, rendering: Result<Rendered>): Result<Message> {
    var recipients := ParseRecipients(rule.recipients);
    if recipients == [] then Err("ValueError")
    else match rendering
      case Err(e) => Err(e)
      case Ok(rendered) =>
        Ok(Message(recipients, ParseRecipients(rule.ccRecipients), rendered.subject, rendered.htmlBody))
  }

  /** The addresses of the row's own field, if that field holds any, and the rule's otherwise. */
  predicate AddressedFrom(row: Row, field: string, fixed: string, addresses: seq<string>) {
    var own := if field != "" && field in row && row[field].Some? then ParseRecipients(row[field].value) else [];
    addresses == if own != [] then own else ParseRecipients(fixed)
  }

  /** The mail of row i: rendered from it, addressed by it or by the rule, and addressed to somebody. */
  ghost predicate RowMail(rule: Rule, env: Environment, rows: seq<Row>, i: nat, m: Message)
    requires i < |rows|
  {
    && env.Rendering(OneRow(rows, i)) == Ok(Rendered(m.subject, m.htmlBody))
    && AddressedFrom(rows[i], rule.dynamicRecipientField, rule.recipients, m.recipients) && m.recipients != []
    && AddressedFrom(rows[i], rule.dynamicCcField, rule.ccRecipients, m.ccRecipients)
  }

  /** Row i has no mail: its template raises, or it has nobody to go to. */
  ghost predicate RowFails(rule: Rule, env: Environment, rows: seq<Row>, i: nat, errorType: string)
    requires i < |rows|
  {
    match env.Rendering(OneRow(rows, i))
    case Err(e) => errorType == e
    case Ok(_) => errorType == "ValueError" && AddressedFrom(rows[i], rule.dynamicRecipientField, rule.recipients, [])
  }

  /** The one mail about all rows: rendered from them, addressed by the rule, and to somebody. */
  ghost predicate SummaryMail(rule: Rule, env: Environment, rows: seq<Row>, m: Message) {
    && env.Rendering(AllRows(rows)) == Ok(Rendered(m.subject, m.htmlBody))
    && m.recipients == ParseRecipients(rule.recipients) != [] && m.ccRecipients == ParseRecipients(rule.ccRecipients)
  }

  ghost predicate SummaryFails(rule: Rule, env: Environment, rows: seq<Row>, errorType: string) {
    if ParseRecipients(rule.recipients) == [] then errorType == "ValueError"
    else env.Rendering(AllRows(rows)) == Err(errorType)
  }

  lemma MessageForRowIs(rule: Rule, env: Environment, rows: seq<Row>, i: nat)
    requires i < |rows|
    ensures match MessageForRow(rule, env.Rendering(OneRow(rows, i)), rows[i])
      case Ok(m) => RowMail(rule, env, rows, i, m)
      case Err(e) => RowFails(rule, env, rows, i, e)
  {
  }

  /** The messages are those of all rows in order, or none at all if any of them fails. */
  ghost predicate MessagesFor(rule: Rule, env: Environment, rows: seq<Row>, built: Result<seq<Message>>) {
    match (rule.sendMode, built)
    case (Summary, Ok(ms)) => |ms| == 1 && SummaryMail(rule, env, rows, ms[0])
    case (Summary, Err(e)) => SummaryFails(rule, env, rows, e)
    case (PerRow, Ok(ms)) => |ms| == |rows| && forall i :: 0 <= i < |rows| ==> RowMail(rule, env, rows, i, ms[i])
    case (PerRow, Err(e)) => exists i :: 0 <= i < |rows| && FailsFirstAt(rule, env, rows, i, e)
  }

  ghost predicate RowHasMail(rule: Rule, env: Environment, rows: seq<Row>, i: nat)
    requires i < |rows|
  {
    exists m :: RowMail(rule, env, rows, i, m)
  }

  ghost predicate FailsFirstAt(rule: Rule, env: Environment, rows: seq<Row>, i: nat, errorType: string)
    requires i < |rows|
  {
    && RowFails(rule, env, rows, i, errorType)
    && forall j :: 0 <= j < i ==> RowHasMail(rule, env, rows, j)
  }

  method BuildMessages(rule: Rule, env: Environment, rows: seq<Row>) returns (built: Result<seq<Message>>)
    ensures MessagesFor(rule, env, rows, built)
  {
    if rule.sendMode.Summary? {
      var summary := SummaryMessage(rule, env.Rendering(AllRows(rows)));
      return if summary.Ok? then Ok([summary.value]) else Err(summary.errorType);
    }
    built := BuildRowMessages(rule, env, rows);
  }

  /** The loop over the rows. */
  method BuildRowMessages(rule: Rule, env: Environment, rows: seq<Row>) returns (built: Result<seq<Message>>)
    requires rule.sendMode.PerRow?
    ensures MessagesFor(rule, env, rows, built)
  {
    var messages := [];
    for i := 0 to |rows|
      invariant |messages| == i
      invariant forall j :: 0 <= j < i ==> RowMail(rule, env, rows, j, messages[j])
    {
      var message := MessageForRow(rule, env.Rendering(OneRow(rows, i)), rows[i]);
      MessageForRowIs(rule, env, rows, i);
      if message.Err? {
        forall j | 0 <= j < i
          ensures RowHasMail(rule, env, rows, j)
        {
          assert RowMail(rule, env, rows, j, messages[j]);
        }
        assert FailsFirstAt(rule, env, rows, i, message.errorType);
        return Err(message.errorType);
      }
      messages := messages + [message.value];
    }
    built := Ok(messages);
  }

  function Successes(mails: seq<MailResult>): (n: nat)
    ensures n <= |mails|
    ensures n == |mails| <==> forall i :: 0 <= i < |mails| ==> mails[i].result.success
    ensures n == 0 <==> forall i :: 0 <= i < |mails| ==> !mails[i].result.success
  {
    if mails == [] then 0
    else Successes(mails[..|mails| - 1]) + if mails[|mails| - 1].result.success then 1 else 0
  }

  predicate AnyPartial(mails: seq<MailResult>) {
    exists i :: 0 <= i < |mails| && mails[i].result.partialSuccess
  }

  function StatusForMailResults(mails: seq<MailResult>): Status {
    if Successes(mails) == |mails| then Success
    else if Successes(mails) == 0 && !AnyPartial(mails) then Failed
    else PartialFailed
  }

  /** The results of sending messages i, i+1, ... belong to the replies of the server. */
  ghost predicate Sent(env: Environment, messages: seq<Message>, mails: seq<MailResult>) {
    && |mails| == |messages|
    && forall i :: 0 <= i < |mails| ==> mails[i] == MailResult(messages[i], Classified(messages[i], env.Reply(i)))
  }

  /** What reached the mailboxes for these results of sending. */
  function DeliveredBy(env: Environment, mails: seq<MailResult>): seq<Delivery> {
    if mails == [] then []
    else
      var last := |mails| - 1;
      DeliveredBy(env, mails[..last]) + Deliveries(mails[last].message, env.Reply(last))
  }

  /** RuleExecutor._send_message: an exception of the mailer counts as a failure. */
  method SendMessage(server: MailServer, message: Message, reply: SmtpReply) returns (mail: MailResult)
    modifies server
    ensures mail == MailResult(message, Classified(message, reply))
    ensures server.delivered == old(server.delivered) + Deliveries(message, reply)
  {
    var raised, result, client := Send(server, message, reply);
    mail := MailResult(message, if raised then SendResult(false, false) else result);
  }

  method SendAll(server: MailServer, env: Environment, messages: seq<Message>) returns (mails: seq<MailResult>)
    modifies server
    ensures Sent(env, messages, mails)
    ensures server.delivered == old(server.delivered) + DeliveredBy(env, mails)
  {
    mails := [];
    for i := 0 to |messages|
      invariant Sent(env, messages[..i], mails)
      invariant server.delivered == old(server.delivered) + DeliveredBy(env, mails)
    {
      var mail := SendMessage(server, messages[i], env.Reply(i));
      DeliveredOneMore(env, mails, mail);
      SentOneMore(env, messages[..i], mails, messages[i], mail);
      assert messages[..i + 1] == messages[..i] + [messages[i]];
      mails := mails + [mail];
    }
    assert messages[..|messages|] == messages;
  }

  lemma SentOneMore(env: Environment, messages: seq<Message>, mails: seq<MailResult>, message: Message, mail: MailResult)
    requires Sent(env, messages, mails) && mail == MailResult(message, Classified(message, env.Reply(|mails|)))
    ensures Sent(env, messages + [message], mails + [mail])
  {
  }

  lemma DeliveredOneMore(env: Environment, mails: seq<MailResult>, mail: MailResult)
    ensures DeliveredBy(env, mails + [mail]) == DeliveredBy(env, mails) + Deliveries(mail.message, env.Reply(|mails|))
  {
    assert (mails + [mail])[..|mails|] == mails;
  }

  /** Nobody accepted any of the mails. */
  ghost predicate NobodyReached(env: Environment, mails: seq<MailResult>) {
    forall i :: 0 <= i < |mails| ==> Accepted(mails[i].message, env.Reply(i)) == []
  }

  lemma NobodyReachedStep(env: Environment, mails: seq<MailResult>, last: MailResult)
    ensures NobodyReached(env, mails + [last]) <==>
      NobodyReached(env, mails) && Accepted(last.message, env.Reply(|mails|)) == []
  {
    var more := mails + [last];
    assert more[|mails|] == last && forall i :: 0 <= i < |mails| ==> more[i] == mails[i];
  }

  lemma DeliveredStep(env: Environment, mails: seq<MailResult>, last: MailResult)
    ensures DeliveredBy(env, mails + [last]) == [] <==>
      DeliveredBy(env, mails) == [] && Accepted(last.message, env.Reply(|mails|)) == []
  {
    DeliveredOneMore(env, mails, last);
  }

  lemma SomeStep(env: Environment, mails: seq<MailResult>, last: MailResult)
    requires DeliveredBy(env, mails) == [] <==> NobodyReached(env, mails)
    ensures DeliveredBy(env, mails + [last]) == [] <==> NobodyReached(env, mails + [last])
  {
    DeliveredStep(env, mails, last);
    NobodyReachedStep(env, mails, last);
  }

  lemma {:induction false} DeliveredSome(env: Environment, mails: seq<MailResult>)
    ensures DeliveredBy(env, mails) == [] <==> NobodyReached(env, mails)
  {
    if mails != [] {
      var rest, last := mails[..|mails| - 1], mails[|mails| - 1];
      assert rest + [last] == mails;
      DeliveredSome(env, rest);
      SomeStep(env, rest, last);
    }
  }

  function FailedWith(errorType: string, rowCount: nat, sqlstate: string): ExecutionResult {
    ExecutionResult(Failed, rowCount, 0, errorType, 0, [], sqlstate)
  }

  /** The rows an attempt goes on with: all of them, or those that pass the suppression filter over
      these records, if looking one up does not raise. */
  function FilterOutcome(setting: Option<Setting>, records: Records, env: Environment): Result<seq<Row>> {
    match env.query
    case Err(e) => Err(e)
    case Ok(rows) =>
      if setting.None? then Ok(rows)
      else if env.lookup.Err? && Keys(rows, setting.value.field, |rows|) != [] then Err(env.lookup.errorType)
      else Ok(Passed(rows, setting.value.field, records, env.now - setting.value.windowHours, |rows|))
  }

  /** The filter raises exactly if the query did, or a record had to be looked up, for some row has a
      key, and that raised. */
  lemma FilterRaises(setting: Option<Setting>, records: Records, env: Environment, e: string)
    ensures FilterOutcome(setting, records, env) == Err(e) <==>
      || env.query == Err(e)
      || (&& env.query.Ok? && setting.Some? && env.lookup == Err(e)
          && exists i :: 0 <= i < |env.query.value| && RowKey(env.query.value[i], setting.value.field) != "")
  {
    if env.query.Ok? && setting.Some? {
      KeysSome(env.query.value, setting.value.field, |env.query.value|);
    }
  }

  /** The suppression state of an attempt: none without a filter or after an exception, otherwise
      what the filter collected. */
  function StateOf(setting: Option<Setting>, records: Records, env: Environment): Option<SuppressionState> {
    if setting.None? || env.setup.Err? then None
    else if env.sqlCheck.Err? || env.query.Err? then Some(SuppressionState([], [], env.now))
    else if FilterOutcome(setting, records, env).Err? then None
    else Some(Collected(env.query.value, setting.value, records, env.now))
  }

  /** The row filter at work. */
  method FilterQueried(setting: Option<Setting>, records: Records, env: Environment)
      returns (filtered: Result<seq<Row>>, state: Option<SuppressionState>)
    requires env.setup.Ok? && env.sqlCheck.Ok? && env.query.Ok?
    ensures filtered == FilterOutcome(setting, records, env) && state == StateOf(setting, records, env)
  {
    var rows := env.query.value;
    if setting.None? {
      return Ok(rows), None;
    }
    if env.lookup.Err? && Keys(rows, setting.value.field, |rows|) != [] {
      return Err(env.lookup.errorType), None;
    }
    var passed, collected := FilterRows(rows, setting.value.field, records, env.now, setting.value.windowHours);
    return Ok(passed), Some(collected);
  }

  /** What an attempt ends with, given the rows it goes on with after the query. */
  ghost predicate Attempted(rule: Rule, env: Environment, filtered: Result<seq<Row>>, result: ExecutionResult) {
    if env.setup.Err? then result == FailedWith(env.setup.errorType, 0, "")
    else if env.sqlCheck.Err? then result == FailedWith(env.sqlCheck.errorType, 0, "")
    else if env.query.Err? then result == FailedWith(env.query.errorType, 0, env.sqlstate)
    else if filtered.Err? then result == FailedWith(filtered.errorType, 0, "")
    else if filtered.value == [] then result == ExecutionResult(Success, |env.query.value|, 0, "", 0, [], "")
    else exists built ::
      && MessagesFor(rule, env, filtered.value, built)
      && if built.Err? then result == FailedWith(built.errorType, |env.query.value|, "")
         else Mailed(env, built.value, |env.query.value|, result)
  }

  ghost predicate Mailed(env: Environment, messages: seq<Message>, rowCount: nat, result: ExecutionResult) {
    && Sent(env, messages, result.mailResults)
    && result.status == StatusForMailResults(result.mailResults)
    && result.rowCount == rowCount
    && result.mailCount == Successes(result.mailResults)
    && result.errorType == (if result.mailCount < |messages| then "MailSendError" else "")
    && result.sqlstate == "" && result.retryNote == 0
  }

  /** RuleExecutor.execute with the set-up before it (_execute_rule_once); `records` is the suppression table. */
  method ExecuteOnce(server: MailServer, rule: Rule, setting: Option<Setting>, records: Records, env: Environment)
      returns (result: ExecutionResult, state: Option<SuppressionState>)
    modifies server
    ensures Attempted(rule, env, FilterOutcome(setting, records, env), result)
    ensures state == StateOf(setting, records, env)
    ensures server.delivered == old(server.delivered) + DeliveredBy(env, result.mailResults)
  {
    if env.setup.Err? {
      return FailedWith(env.setup.errorType, 0, ""), None;
    }
    state := if setting.None? then None else Some(SuppressionState([], [], env.now));
    if env.sqlCheck.Err? {
      return FailedWith(env.sqlCheck.errorType, 0, ""), state;
    }
    if env.query.Err? {
      return FailedWith(env.query.errorType, 0, env.sqlstate), state;
    }
    var filtered;
    filtered, state := FilterQueried(setting, records, env);
    result := if filtered.Err? then FailedWith(filtered.errorType, 0, "") else FailedWith("", 0, "");
    if filtered.Ok? {
      result := MailRows(server, rule, env, filtered.value);
    }
  }

  /** The executor after the row filter. */
  method MailRows(server: MailServer, rule: Rule, env: Environment, rows: seq<Row>) returns (result: ExecutionResult)
    requires env.setup.Ok? && env.sqlCheck.Ok? && env.query.Ok?
    modifies server
    ensures Attempted(rule, env, Ok(rows), result)
    ensures server.delivered == old(server.delivered) + DeliveredBy(env, result.mailResults)
  {
    var rowCount := |env.query.value|;
    if rows == [] {
      return ExecutionResult(Success, rowCount, 0, "", 0, [], "");
    }
    var built := BuildMessages(rule, env, rows);
    if built.Err? {
      return FailedWith(built.errorType, rowCount, "");
    }
    var mails := SendAll(server, env, built.value);
    var successes := Successes(mails);
    result := ExecutionResult(StatusForMailResults(mails), rowCount, successes,
      if successes < |mails| then "MailSendError" else "", 0, mails, "");
  }

  // ----- what the status says about the deliveries -----

  lemma RefusedEverywhere(message: Message, reply: SmtpReply)
    requires !Classified(message, reply).success && !Classified(message, reply).partialSuccess
    ensures Accepted(message, reply) == []
  {
  }

  lemma FailedMailsReachNobody(env: Environment, messages: seq<Message>, mails: seq<MailResult>)
    requires Sent(env, messages, mails) && StatusForMailResults(mails) == Failed
    ensures DeliveredBy(env, mails) == []
  {
    forall i | 0 <= i < |mails|
      ensures Accepted(mails[i].message, env.Reply(i)) == []
    {
      assert !mails[i].result.success && !mails[i].result.partialSuccess;
      RefusedEverywhere(messages[i], env.Reply(i));
    }
    DeliveredSome(env, mails);
  }

  /** A failed attempt has put a mail into nobody's box. */
  lemma FailedDeliversNothing(rule: Rule, env: Environment, filtered: Result<seq<Row>>, result: ExecutionResult)
    requires Attempted(rule, env, filtered, result) && result.status == Failed
    ensures DeliveredBy(env, result.mailResults) == []
  {
    if result.mailResults != [] {
      var built :| MessagesFor(rule, env, filtered.value, built) && built.Ok?
        && Mailed(env, built.value, |env.query.value|, result);
      FailedMailsReachNobody(env, built.value, result.mailResults);
    }
  }

  /** The three verdicts on the mails of a run, in terms of who accepted what. */
  lemma StatusMeansDelivery(env: Environment, messages: seq<Message>, mails: seq<MailResult>)
    requires Sent(env, messages, mails) && messages != []
    requires forall m :: m in messages ==> m.recipients != []
    ensures StatusForMailResults(mails) == Success <==>
      forall i :: 0 <= i < |messages| ==> env.Reply(i) == Replied({})
    ensures StatusForMailResults(mails) == Failed <==>
      forall i :: 0 <= i < |messages| ==> Accepted(messages[i], env.Reply(i)) == []
    ensures StatusForMailResults(mails) != Running
  {
    forall i | 0 <= i < |messages|
      ensures mails[i].result.success <==> env.Reply(i) == Replied({})
      ensures mails[i].result.success || mails[i].result.partialSuccess <==> Accepted(messages[i], env.Reply(i)) != []
    {
      assert messages[i] in messages;
      if env.Reply(i) == Replied({}) {
        KeptSome(messages[i].Addresses(), {});
        assert messages[i].Addresses()[0] !in {};
      }
    }
  }

  lemma BuiltHaveRecipients(rule: Rule, env: Environment, rows: seq<Row>, built: Result<seq<Message>>)
    requires MessagesFor(rule, env, rows, built) && built.Ok? && rows != []
    ensures built.value != [] && forall m :: m in built.value ==> m.recipients != []
  {
    forall m | m in built.value
      ensures m.recipients != []
    {
      var i :| 0 <= i < |built.value| && built.value[i] == m;
      if rule.sendMode.PerRow? {
        assert RowMail(rule, env, rows, i, m);
      }
    }
  }

  /** The verdict of an attempt that mailed: a success if and only if the server refused nobody,
      a failure if and only if nobody at all accepted anything. */
  lemma VerdictIsExact(rule: Rule, env: Environment, filtered: Result<seq<Row>>, result: ExecutionResult)
    requires Attempted(rule, env, filtered, result) && result.mailResults != []
    ensures result.status == Success <==> forall i :: 0 <= i < |result.mailResults| ==> env.Reply(i) == Replied({})
    ensures result.status == Failed <==> DeliveredBy(env, result.mailResults) == []
    ensures result.status in {Success, Failed, PartialFailed}
  {
    var built :| MessagesFor(rule, env, filtered.value, built) && built.Ok?
      && Mailed(env, built.value, |env.query.value|, result);
    BuiltHaveRecipients(rule, env, filtered.value, built);
    StatusMeansDelivery(env, built.value, result.mailResults);
    DeliveredSome(env, result.mailResults);
  }

  /** An exception before the mails are sent ends the attempt as a failure of that type, with no mail. */
  lemma ExceptionsFail(rule: Rule, env: Environment, filtered: Result<seq<Row>>, result: ExecutionResult)
    requires Attempted(rule, env, filtered, result)
    ensures var raised :=
        if env.setup.Err? then Some(env.setup.errorType)
        else if env.sqlCheck.Err? then Some(env.sqlCheck.errorType)
        else if env.query.Err? then Some(env.query.errorType)
        else if filtered.Err? then Some(filtered.errorType) else None;
      raised.Some? ==>
        && result.status == Failed && result.errorType == raised.value
        && result.mailResults == [] && result.mailCount == 0 && result.rowCount == 0
    ensures result.sqlstate != "" ==> env.query.Err? && result.sqlstate == env.sqlstate
    ensures result.mailResults == [] && result.status != Success ==> result.status == Failed
    ensures env.query.Ok? && filtered.Ok? && env.setup.Ok? && env.sqlCheck.Ok? ==> result.rowCount == |env.query.value|
  {
  }

  // ----- which rows the mails are about -----

  /** In summary mode one mail about all the rows; in per-row mode one mail for every row, in order,
      each made from its own row. */
  ghost predicate MailsAbout(rule: Rule, env: Environment, rows: seq<Row>, mails: seq<MailResult>) {
    if rule.sendMode.Summary? then |mails| == 1 && SummaryMail(rule, env, rows, mails[0].message)
    else |mails| == |rows| && forall i :: 0 <= i < |rows| ==> RowMail(rule, env, rows, i, mails[i].message)
  }

  lemma SentAbout(rule: Rule, env: Environment, rows: seq<Row>, messages: seq<Message>, mails: seq<MailResult>)
    requires MessagesFor(rule, env, rows, Ok(messages)) && Sent(env, messages, mails)
    ensures MailsAbout(rule, env, rows, mails)
  {
  }

  /** The mails of an attempt are about exactly the rows that the filter let through. */
  lemma MailsAreAboutFiltered(rule: Rule, env: Environment, filtered: Result<seq<Row>>, result: ExecutionResult)
    requires Attempted(rule, env, filtered, result) && result.mailResults != []
    ensures filtered.Ok? && MailsAbout(rule, env, filtered.value, result.mailResults)
  {
    var built :| MessagesFor(rule, env, filtered.value, built) && built.Ok?
      && Mailed(env, built.value, |env.query.value|, result);
    SentAbout(rule, env, filtered.value, built.value, result.mailResults);
  }

  // ----- retries -----

  predicate Retryable(result: ExecutionResult) {
    && result.status == Failed
    && if result.sqlstate != "" then
         "08" <= result.sqlstate || result.sqlstate in {"40001", "HYT00", "HYT01"}
       else
         result.errorType in {"ConnectionError", "MailSendError", "OSError", "RuntimeError", "TimeoutError"}
  }

  /** An attempt that sent mails is retried exactly if nobody at all got one; one that ended before is
      retried by the SQLSTATE of its query, if there is one, and by the type of its exception otherwise. */
  lemma WhatIsRetried(rule: Rule, env: Environment, filtered: Result<seq<Row>>, result: ExecutionResult)
    requires Attempted(rule, env, filtered, result)
    ensures result.mailResults != [] ==> (Retryable(result) <==> DeliveredBy(env, result.mailResults) == [])
    ensures result.mailResults == [] && result.status == Failed && result.sqlstate != "" ==>
      var s := result.sqlstate;
      Retryable(result) <==> (|s| >= 2 && s[0] == '0' && s[1] == '8') || s == "40001" || s == "HYT00" || s == "HYT01"
    ensures result.mailResults == [] && result.status == Failed && result.sqlstate == "" ==>
      var e := result.errorType;
      Retryable(result) <==>
        e == "ConnectionError" || e == "MailSendError" || e == "OSError" || e == "RuntimeError" || e == "TimeoutError"
    ensures result.status != Failed ==> !Retryable(result)
  {
    if result.mailResults != [] {
      VerdictIsExact(rule, env, filtered, result);
      SentCounts(rule, env, filtered, result);
    }
  }

  lemma SentCounts(rule: Rule, env: Environment, filtered: Result<seq<Row>>, result: ExecutionResult)
    requires Attempted(rule, env, filtered, result) && result.mailResults != []
    ensures result.sqlstate == ""
    ensures result.status == Failed ==> result.errorType == "MailSendError"
    ensures result.errorType == if result.status == Success then "" else "MailSendError"
  {
    var built :| MessagesFor(rule, env, filtered.value, built) && built.Ok?
      && Mailed(env, built.value, |env.query.value|, result);
  }

  function TotalAttempts(maxAttempts: int): (n: nat)
    ensures n >= 1 && n >= maxAttempts && (n == 1 || n == maxAttempts)
  {
    if maxAttempts > 1 then maxAttempts else 1
  }

  /** What an attempt over these records ends with. */
  ghost predicate AttemptedOver(
      rule: Rule, setting: Option<Setting>, records: Records, env: Environment, result: ExecutionResult)
  {
    Attempted(rule, env, FilterOutcome(setting, records, env), result)
  }

  /** An attempt: what it ends with, the suppression state it leaves, and what it delivered. */
  ghost predicate Turn(rule: Rule, setting: Option<Setting>, records: Records, env: Environment,
      result: ExecutionResult, state: Option<SuppressionState>, before: seq<Delivery>, after: seq<Delivery>)
  {
    && AttemptedOver(rule, setting, records, env, result)
    && state == StateOf(setting, records, env)
    && after == before + DeliveredBy(env, result.mailResults)
  }

  /** One turn of the retry loop. */
  method TryOnce(server: MailServer, rule: Rule, setting: Option<Setting>, records: Records, env: Environment,
      lastAllowed: bool) returns (result: ExecutionResult, state: Option<SuppressionState>, done: bool)
    modifies server
    ensures Turn(rule, setting, records, env, result, state, old(server.delivered), server.delivered)
    ensures done <==> !Retryable(result) || lastAllowed
    ensures !done ==> server.delivered == old(server.delivered)
  {
    result, state := ExecuteOnce(server, rule, setting, records, env);
    done := !Retryable(result) || lastAllowed;
    if !done {
      FailedDeliversNothing(rule, env, FilterOutcome(setting, records, env), result);
    }
  }

  /** The attempts before the last one: all to be retried. */
  ghost predicate Retried(rule: Rule, setting: Option<Setting>, records: Records, environments: seq<Environment>,
      results: seq<ExecutionResult>)
    requires |results| <= |environments|
    decreases |results|
  {
    results != [] ==>
      var n := |results| - 1;
      && AttemptedOver(rule, setting, records, environments[n], results[n]) && Retryable(results[n])
      && Retried(rule, setting, records, environments, results[..n])
  }

  lemma RetriedOneMore(rule: Rule, setting: Option<Setting>, records: Records, environments: seq<Environment>,
      results: seq<ExecutionResult>, result: ExecutionResult)
    requires |results| < |environments| && Retried(rule, setting, records, environments, results)
    requires AttemptedOver(rule, setting, records, environments[|results|], result) && Retryable(result)
    ensures Retried(rule, setting, records, environments, results + [result])
  {
    assert (results + [result])[..|results|] == results;
  }

  /** The retry loop of execute_rule_by_id: `environments[i]` is what attempt i + 1 meets, `earlier` what the
      attempts before the last one end with, `last` what the last one does. */
  method ExecuteWithRetries(server: MailServer, rule: Rule, setting: Option<Setting>, records: Records,
      environments: seq<Environment>, maxAttempts: int)
      returns (result: ExecutionResult, state: Option<SuppressionState>, used: nat,
               ghost earlier: seq<ExecutionResult>, ghost last: ExecutionResult)
    requires |environments| >= TotalAttempts(maxAttempts)
    modifies server
    ensures 1 <= used <= TotalAttempts(maxAttempts) && |earlier| == used - 1
    // the first attempt that is not to be retried ends the loop, or else the last allowed one
    ensures Retried(rule, setting, records, environments, earlier)
    ensures Retryable(last) ==> used == TotalAttempts(maxAttempts)
    ensures result == last.(retryNote := if used > 1 && Retryable(last) then used - 1 else last.retryNote)
    // whatever was delivered in all was delivered by the last attempt
    ensures Turn(rule, setting, records, environments[used - 1], last, state, old(server.delivered), server.delivered)
  {
    var total := TotalAttempts(maxAttempts);
    earlier, used := [], 0;
    result, state := FailedWith("RuntimeError", 0, ""), None;
    var done := false;
    ghost var before, env := server.delivered, environments[0];
    while !done
      invariant 0 <= used <= total && |earlier| == if done then used - 1 else used
      invariant !done ==> used < total && server.delivered == before
      invariant done ==> used > 0 && env == environments[used - 1] && (Retryable(result) ==> used == total)
      invariant done ==> Turn(rule, setting, records, env, result, state, before, server.delivered)
      invariant Retried(rule, setting, records, environments, earlier)
      decreases total - used
    {
      env := environments[used];
      result, state, done := TryOnce(server, rule, setting, records, environments[used], used + 1 == total);
      used := used + 1;
      if !done {
        RetriedOneMore(rule, setting, records, environments, earlier, result);
        earlier := earlier + [result];
      }
    }
    last := result;
    if used > 1 && Retryable(result) {
      result := result.(retryNote := used - 1);
    }
  }
}
