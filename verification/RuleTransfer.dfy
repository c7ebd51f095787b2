/** Exporting rules to JSON and importing them again (app/routes.py:327-498, 883-914). */
module RuleTransfer {
  import opened Outcomes
  import opened Text
  import opened Numerals
  import opened Executions

  const MAX_IMPORTED_RULES := 500

  datatype AlertRule = AlertRule(
    name: string,
    dataSourceId: int,
    sqlText: string,
    cronExpression: string,
    delivery: Rule,                             // send mode, recipients and dynamic fields
    subjectTemplate: string,
    bodyTemplate: string,
    queryTimeoutSeconds: int,
    maxRows: int,
    enabled: bool,
    notes: string,
    suppressDuplicates: bool,
    suppressionKeyField: string,
    suppressionWindowHours: int)

  datatype DataSource = DataSource(id: int, name: string)

  /** What the SQL check and the cron library accept. */
  datatype Validators = Validators(sql: set<string>, cron: set<string>)

  // ----- documents -----

  /** Other values (fractions, lists, dictionaries) by what the importer asks of them. */
  datatype Json = JStr(s: string) | JInt(n: int) | JBool(b: bool) | JNull
    | JOther(text: string, truthy: bool, asInt: Result<int>, isOne: bool)
  {
    function Str(): string {
      match this
      case JStr(s) => s
      case JInt(n) => IntText(n)
      case JBool(b) => if b then "True" else "False"
      case JNull => "None"
      case JOther(text, _, _, _) => text
    }

    predicate Truthy() {
      match this
      case JStr(s) => s != ""
      case JInt(n) => n != 0
      case JBool(b) => b
      case JNull => false
      case JOther(_, truthy, _, _) => truthy
    }

    function Int(): Result<int> {
      match this
      case JStr(s) => (match ParseInt(s) case None => Err("ValueError") case Some(n) => Ok(n))
      case JInt(n) => Ok(n)
      case JBool(b) => Ok(if b then 1 else 0)
      case JNull => Err("TypeError")
      case JOther(_, _, asInt, _) => asInt
    }

    predicate EqualsOne() {
      match this
      case JStr(_) => false
      case JInt(n) => n == 1
      case JBool(b) => b
      case JNull => false
      case JOther(_, _, _, isOne) => isOne
    }
  }

  datatype Field = Name | DataSourceName | SqlText | CronExpression | Recipients | CcRecipients | SubjectTemplate
    | BodyTemplate | SendModeField | QueryTimeoutSeconds | MaxRows | Enabled | Notes | DynamicRecipientField
    | DynamicCcField | SuppressDuplicates | SuppressionKeyField | SuppressionWindowHours

  type Fields = map<Field, Json>

  datatype Entry = NotADictionary | Dictionary(fields: Fields)

  /** A document that is no dictionary, or its version and its rules if they are a list. */
  datatype Document = NoDocument | Document(version: Option<Json>, rules: Option<seq<Entry>>)

  // ----- data sources -----

  function NameOf(sources: seq<DataSource>, id: int): string {
    if sources == [] then ""
    else
      var last := |sources| - 1;
      if sources[last].id == id then sources[last].name else NameOf(sources[..last], id)
  }

  function SourceNamed(sources: seq<DataSource>, name: string): Option<int> {
    if sources == [] then None
    else
      var last := |sources| - 1;
      if sources[last].name == name then Some(sources[last].id) else SourceNamed(sources[..last], name)
  }

  /** Ids and names are keys of the table of data sources. */
  predicate Unique(sources: seq<DataSource>) {
    forall i, j :: 0 <= i < j < |sources| ==> sources[i].id != sources[j].id && sources[i].name != sources[j].name
  }

  // ----- export -----

  function SendModeText(mode: SendMode): string {
    if mode.Summary? then "summary" else "per_row"
  }

  function ExportedValue(sourceName: string, rule: AlertRule, field: Field): Json {
    match field
    case Name => JStr(rule.name)
    case DataSourceName => JStr(sourceName)
    case SqlText => JStr(rule.sqlText)
    case CronExpression => JStr(rule.cronExpression)
    case Recipients => JStr(rule.delivery.recipients)
    case CcRecipients => JStr(rule.delivery.ccRecipients)
    case SubjectTemplate => JStr(rule.subjectTemplate)
    case BodyTemplate => JStr(rule.bodyTemplate)
    case SendModeField => JStr(SendModeText(rule.delivery.sendMode))
    case QueryTimeoutSeconds => JInt(rule.queryTimeoutSeconds)
    case MaxRows => JInt(rule.maxRows)
    case Enabled => JBool(rule.enabled)
    case Notes => JStr(rule.notes)
    case DynamicRecipientField => JStr(rule.delivery.dynamicRecipientField)
    case DynamicCcField => JStr(rule.delivery.dynamicCcField)
    case SuppressDuplicates => JBool(rule.suppressDuplicates)
    case SuppressionKeyField => JStr(rule.suppressionKeyField)
    case SuppressionWindowHours => JInt(rule.suppressionWindowHours)
  }

  function ExportEntry(sources: seq<DataSource>, rule: AlertRule): Entry {
    Dictionary(map field: Field | true :: ExportedValue(NameOf(sources, rule.dataSourceId), rule, field))
  }

  function Export(sources: seq<DataSource>, rules: seq<AlertRule>): Document {
    Document(Some(JInt(1)), Some(seq(|rules|, i requires 0 <= i < |rules| => ExportEntry(sources, rules[i]))))
  }

  // ----- import of one entry -----

  function Get(fields: Fields, field: Field, default: Json): Json {
    if field in fields then fields[field] else default
  }

  function OptionalText(fields: Fields, field: Field): string {
    Get(fields, field, JStr("")).Str()
  }

  function RequiredText(fields: Fields, field: Field): Result<string> {
    var value := Strip(OptionalText(fields, field));
    if value == "" then Err("ValueError") else Ok(value)
  }

  /** An int between 1 and the maximum, if there is one; what int() raises on a wrong type or value
      becomes the importer's own error, anything else it raises stays. */
  function PositiveInt(fields: Fields, field: Field, default: int, maximum: Option<int>): Result<int> {
    match Get(fields, field, JInt(default)).Int()
    case Err(e) => Err(if e == "TypeError" then "ValueError" else e)
    case Ok(n) => if n <= 0 || (maximum.Some? && n > maximum.value) then Err("ValueError") else Ok(n)
  }

  function SendModeOf(text: string): Result<SendMode> {
    if text == "" || text == "summary" then Ok(Summary)
    else if text == "per_row" then Ok(PerRow)
    else Err("ValueError")
  }

  predicate HasRecipientText(value: string) {
    ParseRecipients(value) != []
  }

  function Checked<T>(condition: bool, value: T): Result<T> {
    if condition then Ok(value) else Err("ValueError")
  }

  function ImportDelivery(fields: Fields): Result<Rule> {
    var sendMode :- SendModeOf(OptionalText(fields, SendModeField));
    var dynamicRecipientField := Strip(OptionalText(fields, DynamicRecipientField));
    var recipients := Strip(OptionalText(fields, Recipients));
    Checked(
      && (dynamicRecipientField != "" ==> sendMode.PerRow?)
      && (HasRecipientText(recipients) || dynamicRecipientField != ""),
      Rule(sendMode, recipients, OptionalText(fields, CcRecipients), dynamicRecipientField,
           Strip(OptionalText(fields, DynamicCcField))))
  }

  datatype Query = Query(name: string, sourceId: int, sqlText: string, cronExpression: string)

  function ImportQuery(validators: Validators, sources: seq<DataSource>, fields: Fields): Result<Query> {
    var name :- RequiredText(fields, Name);
    var sourceName :- RequiredText(fields, DataSourceName);
    var source := SourceNamed(sources, sourceName);
    var sourceId :- if source.Some? then Ok(source.value) else Err("ValueError");
    var sqlText :- RequiredText(fields, SqlText);
    var _ :- Checked(sqlText in validators.sql, ());
    var cronExpression :- RequiredText(fields, CronExpression);
    Checked(cronExpression in validators.cron, Query(name, sourceId, sqlText, cronExpression))
  }

  datatype Limits = Limits(timeout: int, maxRows: int, window: int)

  function ImportLimits(fields: Fields): Result<Limits> {
    var timeout :- PositiveInt(fields, QueryTimeoutSeconds, 30, Some(600));
    var maxRows :- PositiveInt(fields, MaxRows, 500, Some(5000));
    var window :- PositiveInt(fields, SuppressionWindowHours, 24, None);
    Ok(Limits(timeout, maxRows, window))
  }

  function Assemble(fields: Fields, query: Result<Query>, delivery: Result<Rule>, limits: Result<Limits>):
      Result<AlertRule>
  {
    var query :- query;
    var delivery :- delivery;
    var limits :- limits;
    var suppress := Get(fields, SuppressDuplicates, JBool(false)).Truthy();
    var keyField := Strip(OptionalText(fields, SuppressionKeyField));
    Checked(
      suppress ==> keyField != "",
      AlertRule(query.name, query.sourceId, query.sqlText, query.cronExpression, delivery,
                OptionalText(fields, SubjectTemplate), OptionalText(fields, BodyTemplate),
                limits.timeout, limits.maxRows, Get(fields, Enabled, JBool(true)).Truthy(),
                OptionalText(fields, Notes), suppress, keyField, limits.window))
  }

  /** The first check that fails, in this order, decides the error. */
  function ImportEntry(validators: Validators, sources: seq<DataSource>, entry: Entry): Result<AlertRule> {
    match entry
    case NotADictionary => Err("ValueError")
    case Dictionary(fields) =>
      Assemble(fields, ImportQuery(validators, sources, fields), ImportDelivery(fields), ImportLimits(fields))
  }

  // ----- import of a document -----

  predicate Readable(document: Document) {
    && document.Document? && document.version.Some? && document.version.value.EqualsOne()
    && document.rules.Some? && |document.rules.value| <= MAX_IMPORTED_RULES
  }

  predicate AllImport(validators: Validators, sources: seq<DataSource>, entries: seq<Entry>, rules: seq<AlertRule>) {
    && |rules| == |entries|
    && forall i :: 0 <= i < |entries| ==> ImportEntry(validators, sources, entries[i]) == Ok(rules[i])
  }

  /** Either every entry is imported, in order, or nothing is: the error is that of the first bad entry. */
  ghost predicate IsImport(validators: Validators, sources: seq<DataSource>, document: Document,
      result: Result<seq<AlertRule>>)
  {
    if !Readable(document) then result == Err("ValueError")
    else if result.Ok? then AllImport(validators, sources, document.rules.value, result.value)
    else exists i :: 0 <= i < |document.rules.value| && FailsFirst(validators, sources, document.rules.value, i, result)
  }

  ghost predicate FailsFirst(validators: Validators, sources: seq<DataSource>, entries: seq<Entry>, i: nat,
      result: Result<seq<AlertRule>>)
    requires i < |entries|
  {
    && result.Err? && ImportEntry(validators, sources, entries[i]) == Err(result.errorType)
    && forall j :: 0 <= j < i ==> ImportEntry(validators, sources, entries[j]).Ok?
  }

  method BuildImportedRules(validators: Validators, sources: seq<DataSource>, document: Document)
      returns (result: Result<seq<AlertRule>>)
    ensures IsImport(validators, sources, document, result)
  {
    if !Readable(document) {
      return Err("ValueError");
    }
    var entries, imported := document.rules.value, [];
    for i := 0 to |entries|
      invariant |imported| == i
      invariant forall j :: 0 <= j < i ==> ImportEntry(validators, sources, entries[j]) == Ok(imported[j])
    {
      var rule := ImportEntry(validators, sources, entries[i]);
      if rule.Err? {
        result := Err(rule.errorType);
        assert FailsFirst(validators, sources, entries, i, result);
        return;
      }
      imported := imported + [rule.value];
    }
    return Ok(imported);
  }

  class RuleTable {
    var rules: seq<AlertRule>

    /** The number of new rules, or an error after which the table is what it was: of the document, or
        of the database, which may raise when a rule is added or at the commit. */
    method ImportRules(validators: Validators, sources: seq<DataSource>, document: Document, raisesAt: Option<nat>)
        returns (outcome: Result<nat>, ghost imported: Result<seq<AlertRule>>)
      modifies this
      ensures IsImport(validators, sources, document, imported)
      ensures imported.Err? ==> outcome == Err(imported.errorType)
      ensures imported.Ok? ==>
        outcome == if raisesAt.Some? && raisesAt.value <= |imported.value| then Err("DatabaseError") else Ok(|imported.value|)
      ensures rules == if outcome.Ok? then old(rules) + imported.value else old(rules)
    {
      var built := BuildImportedRules(validators, sources, document);
      imported := built;
      if built.Err? {
        return Err(built.errorType), imported;
      }
      var raised := CommitAll(built.value, raisesAt);
      return if raised then Err("DatabaseError") else Ok(|built.value|), imported;
    }

    /** The transaction: nothing is visible before the commit. */
    method CommitAll(added: seq<AlertRule>, raisesAt: Option<nat>) returns (raised: bool)
      modifies this
      ensures raised <==> raisesAt.Some? && raisesAt.value <= |added|
      ensures rules == if raised then old(rules) else old(rules) + added
    {
      var pending := rules;
      for i := 0 to |added|
        invariant pending == rules + added[..i] && rules == old(rules)
        invariant raisesAt.Some? ==> i <= raisesAt.value
      {
        if raisesAt == Some(i) {
          return true;
        }
        pending := pending + [added[i]];
      }
      if raisesAt == Some(|added|) {
        return true;
      }
      rules := pending;
      return false;
    }
  }

  // ----- the round trip -----

  function Normalised(sources: seq<DataSource>, rule: AlertRule): AlertRule {
    var source := SourceNamed(sources, Strip(NameOf(sources, rule.dataSourceId)));
    rule.(
      name := Strip(rule.name),
      dataSourceId := if source.Some? then source.value else rule.dataSourceId,
      sqlText := Strip(rule.sqlText),
      cronExpression := Strip(rule.cronExpression),
      delivery := NormalisedDelivery(rule.delivery),
      suppressionKeyField := Strip(rule.suppressionKeyField))
  }

  predicate DeliveryImportable(delivery: Rule) {
    var dynamic := Strip(delivery.dynamicRecipientField);
    && (dynamic != "" ==> delivery.sendMode.PerRow?)
    && (HasRecipientText(Strip(delivery.recipients)) || dynamic != "")
  }

  predicate TextsImportable(validators: Validators, rule: AlertRule) {
    && Strip(rule.name) != ""
    && Strip(rule.sqlText) != "" && Strip(rule.sqlText) in validators.sql
    && Strip(rule.cronExpression) != "" && Strip(rule.cronExpression) in validators.cron
  }

  predicate QueryImportable(validators: Validators, sources: seq<DataSource>, rule: AlertRule) {
    var sourceName := Strip(NameOf(sources, rule.dataSourceId));
    && TextsImportable(validators, rule)
    && sourceName != "" && SourceNamed(sources, sourceName).Some?
  }

  predicate LimitsImportable(rule: AlertRule) {
    1 <= rule.queryTimeoutSeconds <= 600 && 1 <= rule.maxRows <= 5000 && 1 <= rule.suppressionWindowHours
  }

  predicate Importable(validators: Validators, sources: seq<DataSource>, rule: AlertRule) {
    && QueryImportable(validators, sources, rule) && DeliveryImportable(rule.delivery) && LimitsImportable(rule)
    && (rule.suppressDuplicates ==> Strip(rule.suppressionKeyField) != "")
  }

  /** Every field of an exported rule is found again. */
  predicate Carries(fields: Fields, sourceName: string, rule: AlertRule) {
    forall field: Field :: field in fields && fields[field] == ExportedValue(sourceName, rule, field)
  }

  function NormalisedDelivery(delivery: Rule): Rule {
    delivery.(
      recipients := Strip(delivery.recipients),
      dynamicRecipientField := Strip(delivery.dynamicRecipientField),
      dynamicCcField := Strip(delivery.dynamicCcField))
  }

  lemma SendModeReads(mode: SendMode)
    ensures SendModeOf(SendModeText(mode)) == Ok(mode)
  {
    assert SendModeText(mode)[0] == if mode.Summary? then 's' else 'p';
  }

  lemma DeliveryRoundTrip(fields: Fields, sourceName: string, rule: AlertRule)
    requires Carries(fields, sourceName, rule)
    ensures ImportDelivery(fields) == ExportedDelivery(rule.delivery)
  {
    SendModeReads(rule.delivery.sendMode);
    assert OptionalText(fields, SendModeField) == SendModeText(rule.delivery.sendMode);
    assert OptionalText(fields, Recipients) == rule.delivery.recipients;
    assert OptionalText(fields, CcRecipients) == rule.delivery.ccRecipients;
    assert OptionalText(fields, DynamicRecipientField) == rule.delivery.dynamicRecipientField;
    assert OptionalText(fields, DynamicCcField) == rule.delivery.dynamicCcField;
  }

  function ExportedQuery(validators: Validators, sources: seq<DataSource>, rule: AlertRule): Result<Query> {
    if QueryImportable(validators, sources, rule)
    then Ok(Query(Strip(rule.name), SourceNamed(sources, Strip(NameOf(sources, rule.dataSourceId))).value,
                  Strip(rule.sqlText), Strip(rule.cronExpression)))
    else Err("ValueError")
  }

  function ExportedDelivery(delivery: Rule): Result<Rule> {
    if DeliveryImportable(delivery) then Ok(NormalisedDelivery(delivery)) else Err("ValueError")
  }

  function ExportedLimits(rule: AlertRule): Result<Limits> {
    if LimitsImportable(rule)
    then Ok(Limits(rule.queryTimeoutSeconds, rule.maxRows, rule.suppressionWindowHours))
    else Err("ValueError")
  }

  lemma QueryRoundTrip(validators: Validators, sources: seq<DataSource>, fields: Fields, rule: AlertRule)
    requires Carries(fields, NameOf(sources, rule.dataSourceId), rule)
    ensures ImportQuery(validators, sources, fields) == ExportedQuery(validators, sources, rule)
  {
  }

  lemma LimitsRoundTrip(fields: Fields, sourceName: string, rule: AlertRule)
    requires Carries(fields, sourceName, rule)
    ensures ImportLimits(fields) == ExportedLimits(rule)
  {
  }

  lemma AssembleRoundTrip(fields: Fields, sourceName: string, rule: AlertRule, q: Query, delivery: Rule, l: Limits)
    requires Carries(fields, sourceName, rule)
    ensures Assemble(fields, Ok(q), Ok(delivery), Ok(l)) ==
      var keyField := Strip(rule.suppressionKeyField);
      if rule.suppressDuplicates && keyField == "" then Err("ValueError")
      else Ok(AlertRule(q.name, q.sourceId, q.sqlText, q.cronExpression, delivery, rule.subjectTemplate,
                        rule.bodyTemplate, l.timeout, l.maxRows, rule.enabled, rule.notes, rule.suppressDuplicates,
                        keyField, l.window))
  {
    assert OptionalText(fields, SubjectTemplate) == rule.subjectTemplate;
    assert OptionalText(fields, BodyTemplate) == rule.bodyTemplate;
    assert OptionalText(fields, Notes) == rule.notes;
    assert OptionalText(fields, SuppressionKeyField) == rule.suppressionKeyField;
    assert Get(fields, Enabled, JBool(true)).Truthy() == rule.enabled;
    assert Get(fields, SuppressDuplicates, JBool(false)).Truthy() == rule.suppressDuplicates;
  }

  function Reimported(validators: Validators, sources: seq<DataSource>, rule: AlertRule): Result<AlertRule> {
    if Importable(validators, sources, rule) then Ok(Normalised(sources, rule)) else Err("ValueError")
  }

  /** What is exported is imported exactly if it passes the importer's checks, and comes back
      the same but for outer whitespace. */
  lemma EntryRoundTrip(validators: Validators, sources: seq<DataSource>, rule: AlertRule)
    ensures ImportEntry(validators, sources, ExportEntry(sources, rule)) == Reimported(validators, sources, rule)
  {
    var fields, sourceName := ExportEntry(sources, rule).fields, NameOf(sources, rule.dataSourceId);
    QueryRoundTrip(validators, sources, fields, rule);
    DeliveryRoundTrip(fields, sourceName, rule);
    LimitsRoundTrip(fields, sourceName, rule);
    var query, delivery := ExportedQuery(validators, sources, rule), ExportedDelivery(rule.delivery);
    var limits := ExportedLimits(rule);
    if query.Ok? && delivery.Ok? && limits.Ok? {
      AssembleRoundTrip(fields, sourceName, rule, query.value, delivery.value, limits.value);
    }
  }

  function AllNormalised(sources: seq<DataSource>, rules: seq<AlertRule>): seq<AlertRule> {
    seq(|rules|, i requires 0 <= i < |rules| => Normalised(sources, rules[i]))
  }

  predicate AllImportable(validators: Validators, sources: seq<DataSource>, rules: seq<AlertRule>) {
    forall i :: 0 <= i < |rules| ==> Importable(validators, sources, rules[i])
  }

  lemma AcceptedEntry(validators: Validators, sources: seq<DataSource>, rule: AlertRule, imported: AlertRule)
    requires ImportEntry(validators, sources, ExportEntry(sources, rule)) == Ok(imported)
    ensures Importable(validators, sources, rule) && imported == Normalised(sources, rule)
  {
    EntryRoundTrip(validators, sources, rule);
  }

  lemma AcceptedExport(validators: Validators, sources: seq<DataSource>, rules: seq<AlertRule>, imported: seq<AlertRule>)
    requires AllImport(validators, sources, Export(sources, rules).rules.value, imported)
    ensures AllImportable(validators, sources, rules) && imported == AllNormalised(sources, rules)
  {
    var entries := Export(sources, rules).rules.value;
    forall i | 0 <= i < |rules|
      ensures Importable(validators, sources, rules[i]) && imported[i] == Normalised(sources, rules[i])
    {
      assert entries[i] == ExportEntry(sources, rules[i]);
      AcceptedEntry(validators, sources, rules[i], imported[i]);
    }
  }

  lemma RefusedExport(validators: Validators, sources: seq<DataSource>, rules: seq<AlertRule>, i: nat,
      result: Result<seq<AlertRule>>)
    requires i < |rules| && FailsFirst(validators, sources, Export(sources, rules).rules.value, i, result)
    ensures !Importable(validators, sources, rules[i]) && result == Err("ValueError")
  {
    EntryRoundTrip(validators, sources, rules[i]);
  }

  /** A whole export: imported in order if it has at most 500 rules and all of them pass, refused otherwise. */
  lemma ExportRoundTrip(validators: Validators, sources: seq<DataSource>, rules: seq<AlertRule>,
      result: Result<seq<AlertRule>>)
    requires IsImport(validators, sources, Export(sources, rules), result)
    ensures result ==
      if |rules| <= 500 && AllImportable(validators, sources, rules)
      then Ok(AllNormalised(sources, rules))
      else Err("ValueError")
  {
    if |rules| <= MAX_IMPORTED_RULES {
      var entries := Export(sources, rules).rules.value;
      if result.Ok? {
        AcceptedExport(validators, sources, rules, result.value);
      } else {
        var i :| 0 <= i < |entries| && FailsFirst(validators, sources, entries, i, result);
        RefusedExport(validators, sources, rules, i, result);
      }
    }
  }

  // ----- what is lost, and that nothing is lost twice -----

  lemma {:induction false} SourceOfName(sources: seq<DataSource>, source: DataSource)
    requires source in sources && Unique(sources)
    ensures NameOf(sources, source.id) == source.name && SourceNamed(sources, source.name) == Some(source.id)
  {
    var last := |sources| - 1;
    var j :| 0 <= j < |sources| && sources[j] == source;
    if j < last {
      assert sources[..last][j] == source;
      SourceOfName(sources[..last], source);
    }
  }

  lemma {:induction false} SourceIsIn(sources: seq<DataSource>, name: string)
    requires SourceNamed(sources, name).Some?
    ensures DataSource(SourceNamed(sources, name).value, name) in sources
  {
    var last := |sources| - 1;
    if sources[last].name != name {
      SourceIsIn(sources[..last], name);
      var id := SourceNamed(sources, name).value;
      var j :| 0 <= j < last && sources[..last][j] == DataSource(id, name);
      assert sources[j] == DataSource(id, name);
    }
  }

  /** A second export and import changes nothing. */
  lemma SecondRoundTrip(validators: Validators, sources: seq<DataSource>, rule: AlertRule)
    requires Unique(sources) && Importable(validators, sources, rule)
    ensures var again := Normalised(sources, rule);
      Importable(validators, sources, again) && Normalised(sources, again) == again
  {
    var sourceName := Strip(NameOf(sources, rule.dataSourceId));
    SourceIsIn(sources, sourceName);
    SourceOfName(sources, DataSource(SourceNamed(sources, sourceName).value, sourceName));
    StripTrims(NameOf(sources, rule.dataSourceId));
    StripTrims(rule.name);
    StripTrims(rule.sqlText);
    StripTrims(rule.cronExpression);
    StripTrims(rule.delivery.recipients);
    StripTrims(rule.delivery.dynamicRecipientField);
    StripTrims(rule.delivery.dynamicCcField);
    StripTrims(rule.suppressionKeyField);
  }

  /** The rule keeps its data source exactly if the name of the source has no outer whitespace;
      otherwise it comes back on another source. */
  lemma SourceIsKeptIff(validators: Validators, sources: seq<DataSource>, rule: AlertRule)
    requires Unique(sources) && Importable(validators, sources, rule)
    ensures Normalised(sources, rule).dataSourceId == rule.dataSourceId
      <==> Trimmed(NameOf(sources, rule.dataSourceId))
  {
    var name := NameOf(sources, rule.dataSourceId);
    StripTrims(name);
    SourceIsIn(sources, Strip(name));
    SourceOfName(sources, DataSource(SourceNamed(sources, Strip(name)).value, Strip(name)));
    NameIsIn(sources, rule.dataSourceId);
    SourceOfName(sources, DataSource(rule.dataSourceId, name));
  }

  /** Two sources whose names differ in outer whitespace only: every rule on the one comes back on the other. */
  lemma SourceIsSwapped(sources: seq<DataSource>, padded: DataSource, plain: DataSource, rule: AlertRule)
    requires Unique(sources) && padded in sources && plain in sources
    requires Strip(padded.name) == plain.name && !Trimmed(padded.name) && rule.dataSourceId == padded.id
    ensures Normalised(sources, rule).dataSourceId == plain.id != padded.id
  {
    SourceOfName(sources, padded);
    SourceOfName(sources, plain);
    StripTrims(padded.name);
  }

  /** For every rule that passes all other checks there are sources with which it changes its source. */
  lemma SourceMayChange(validators: Validators, rule: AlertRule) returns (sources: seq<DataSource>)
    requires TextsImportable(validators, rule) && DeliveryImportable(rule.delivery) && LimitsImportable(rule)
    requires rule.suppressDuplicates ==> Strip(rule.suppressionKeyField) != ""
    ensures Unique(sources) && Importable(validators, sources, rule)
    ensures Normalised(sources, rule).dataSourceId != rule.dataSourceId
  {
    var padded, plain := DataSource(rule.dataSourceId, " a"), DataSource(rule.dataSourceId + 1, "a");
    sources := [padded, plain];
    assert padded.name[1..] == plain.name && |padded.name| != |plain.name|;
    assert sources[0] in sources && sources[1] in sources;
    SourceOfName(sources, padded);
    SourceOfName(sources, plain);
    SourceIsSwapped(sources, padded, plain, rule);
  }

  lemma {:induction false} NameIsIn(sources: seq<DataSource>, id: int)
    requires NameOf(sources, id) != ""
    ensures DataSource(id, NameOf(sources, id)) in sources
  {
    var last := |sources| - 1;
    if sources[last].id != id {
      NameIsIn(sources[..last], id);
      var j :| 0 <= j < last && sources[..last][j] == DataSource(id, NameOf(sources, id));
      assert sources[j] == DataSource(id, NameOf(sources, id));
    } else {
      assert sources[last] == DataSource(id, NameOf(sources, id));
    }
  }

  // ----- documents from elsewhere -----

  /** What the importer makes of fields that are not there. */
  lemma MissingFieldsDefault(validators: Validators, sources: seq<DataSource>, fields: Fields, rule: AlertRule)
    requires ImportEntry(validators, sources, Dictionary(fields)) == Ok(rule)
    ensures SendModeField !in fields ==> rule.delivery.sendMode == Summary
    ensures Recipients !in fields ==> rule.delivery.recipients == ""
    ensures CcRecipients !in fields ==> rule.delivery.ccRecipients == ""
    ensures DynamicRecipientField !in fields ==> rule.delivery.dynamicRecipientField == ""
    ensures DynamicCcField !in fields ==> rule.delivery.dynamicCcField == ""
    ensures SubjectTemplate !in fields ==> rule.subjectTemplate == ""
    ensures BodyTemplate !in fields ==> rule.bodyTemplate == ""
    ensures Notes !in fields ==> rule.notes == ""
    ensures QueryTimeoutSeconds !in fields ==> rule.queryTimeoutSeconds == 30
    ensures MaxRows !in fields ==> rule.maxRows == 500
    ensures SuppressionWindowHours !in fields ==> rule.suppressionWindowHours == 24
    ensures Enabled !in fields ==> rule.enabled
    ensures SuppressDuplicates !in fields ==> !rule.suppressDuplicates
    ensures SuppressionKeyField !in fields ==> rule.suppressionKeyField == ""
  {
    StripTrims("");
    assert Trimmed("");
    MissingDelivery(fields, ImportDelivery(fields).value);
    MissingLimits(fields, ImportLimits(fields).value);
  }

  lemma MissingDelivery(fields: Fields, delivery: Rule)
    requires ImportDelivery(fields) == Ok(delivery)
    ensures SendModeField !in fields ==> delivery.sendMode == Summary
    ensures Recipients !in fields ==> delivery.recipients == ""
    ensures CcRecipients !in fields ==> delivery.ccRecipients == ""
    ensures DynamicRecipientField !in fields ==> delivery.dynamicRecipientField == ""
    ensures DynamicCcField !in fields ==> delivery.dynamicCcField == ""
  {
    StripTrims("");
    assert Trimmed("");
  }

  lemma MissingLimits(fields: Fields, limits: Limits)
    requires ImportLimits(fields) == Ok(limits)
    ensures QueryTimeoutSeconds !in fields ==> limits.timeout == 30
    ensures MaxRows !in fields ==> limits.maxRows == 500
    ensures SuppressionWindowHours !in fields ==> limits.window == 24
  {
  }

  /** Without a name, a source, a query or a schedule nothing is imported. */
  lemma RequiredFields(validators: Validators, sources: seq<DataSource>, fields: Fields)
    requires Name !in fields || DataSourceName !in fields || SqlText !in fields || CronExpression !in fields
    ensures ImportEntry(validators, sources, Dictionary(fields)) == Err("ValueError")
  {
    StripTrims("");
    assert Trimmed("");
  }

  /** A number may as well be given as text. */
  lemma NumbersAsText(fields: Fields, field: Field, default: int, maximum: Option<int>, n: int)
    ensures PositiveInt(fields[field := JStr(IntText(n))], field, default, maximum)
      == PositiveInt(fields[field := JInt(n)], field, default, maximum)
    ensures OptionalText(fields[field := JInt(n)], field) == IntText(n)
  {
    IntTextParses(n);
  }

  /** What is accepted as a number is between 1 and the maximum; null and text that is no number are
      errors of the document, and so is a value of the wrong type. */
  lemma NumbersAreChecked(fields: Fields, field: Field, default: int, maximum: Option<int>, value: Json)
    requires field in fields && fields[field] == value
    ensures var r := PositiveInt(fields, field, default, maximum);
      && (r.Ok? ==> r.value >= 1 && (maximum.Some? ==> r.value <= maximum.value))
      && (value == JNull || value == JOther(value.Str(), value.Truthy(), Err("TypeError"), value.EqualsOne()) ==>
          r == Err("ValueError"))
      && (value.JStr? && ParseInt(value.s).None? ==> r == Err("ValueError"))
      && (value == JBool(false) ==> r == Err("ValueError"))
      && (value.JInt? && 1 <= value.n && (maximum.Some? ==> value.n <= maximum.value) ==> r == Ok(value.n))
  {
  }

  /** The two switches go by what counts as true: text unless it is empty, numbers unless they are 0. */
  lemma SwitchesByTruth(validators: Validators, sources: seq<DataSource>, fields: Fields, rule: AlertRule)
    requires ImportEntry(validators, sources, Dictionary(fields)) == Ok(rule)
    ensures Enabled in fields ==>
      match fields[Enabled]
      case JStr(s) => rule.enabled <==> |s| > 0
      case JInt(n) => rule.enabled <==> n != 0
      case JBool(b) => rule.enabled == b
      case JNull => !rule.enabled
      case JOther(_, truthy, _, _) => rule.enabled == truthy
    ensures SuppressDuplicates in fields ==>
      match fields[SuppressDuplicates]
      case JStr(s) => rule.suppressDuplicates <==> |s| > 0
      case JInt(n) => rule.suppressDuplicates <==> n != 0
      case JBool(b) => rule.suppressDuplicates == b
      case JNull => !rule.suppressDuplicates
      case JOther(_, truthy, _, _) => rule.suppressDuplicates == truthy
    ensures rule.suppressDuplicates ==> rule.suppressionKeyField != ""
  {
  }

  /** The two names of the send modes, and no other. */
  lemma SendModeNames(text: string)
    ensures SendModeOf(text) == Ok(Summary) <==> text == "" || text == "summary"
    ensures SendModeOf(text) == Ok(PerRow) <==> text == "per_row"
    ensures SendModeOf(text).Err? <==> text !in {"", "summary", "per_row"}
    ensures SendModeText(Summary) == "summary" && SendModeText(PerRow) == "per_row"
  {
    assert "summary"[0] != "per_row"[0];
  }

  /** A rule can be delivered by its own recipients, or row by row by a field of the rows. */
  lemma DeliverableIff(delivery: Rule)
    ensures DeliveryImportable(delivery) <==>
      || (Strip(delivery.dynamicRecipientField) == "" && ParseRecipients(Strip(delivery.recipients)) != [])
      || (Strip(delivery.dynamicRecipientField) != "" && delivery.sendMode == PerRow)
  {
  }

  // ----- what an imported rule can do -----

  lemma ImportedQueryIsSound(validators: Validators, sources: seq<DataSource>, fields: Fields, query: Query)
    requires ImportQuery(validators, sources, fields) == Ok(query)
    ensures Trimmed(query.name) && query.name != ""
    ensures exists source :: source in sources && source.id == query.sourceId
    ensures query.sqlText in validators.sql && query.cronExpression in validators.cron
  {
    StripTrims(OptionalText(fields, Name));
    SourceIsIn(sources, Strip(OptionalText(fields, DataSourceName)));
  }

  /** Every imported rule can be run: it stays within the limits of the forms, names an existing source,
      and finds recipients without depending on rows unless every row gets a mail of its own. */
  lemma ImportedRulesAreSound(validators: Validators, sources: seq<DataSource>, entry: Entry, rule: AlertRule)
    requires ImportEntry(validators, sources, entry) == Ok(rule)
    ensures Trimmed(rule.name) && rule.name != ""
    ensures exists source :: source in sources && source.id == rule.dataSourceId
    ensures rule.sqlText in validators.sql && rule.cronExpression in validators.cron
    ensures LimitsImportable(rule)
    ensures ParseRecipients(rule.delivery.recipients) == [] ==>
      rule.delivery.sendMode.PerRow? && rule.delivery.dynamicRecipientField != ""
    ensures rule.suppressDuplicates ==> rule.suppressionKeyField != ""
  {
    var fields := entry.fields;
    ImportedQueryIsSound(validators, sources, fields, ImportQuery(validators, sources, fields).value);
    ImportedDeliveryIsSound(fields, ImportDelivery(fields).value);
    ImportedLimitsAreSound(fields, ImportLimits(fields).value);
  }

  lemma ImportedDeliveryIsSound(fields: Fields, delivery: Rule)
    requires ImportDelivery(fields) == Ok(delivery)
    ensures ParseRecipients(delivery.recipients) == [] ==>
      delivery.sendMode.PerRow? && delivery.dynamicRecipientField != ""
  {
  }

  lemma ImportedLimitsAreSound(fields: Fields, limits: Limits)
    requires ImportLimits(fields) == Ok(limits)
    ensures 1 <= limits.timeout <= 600 && 1 <= limits.maxRows <= 5000 && 1 <= limits.window
  {
  }
}
