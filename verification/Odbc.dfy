/** Quoting in connection strings (app/sql_client.py:50-66, 83-97), read back by a parser of the
    attribute format. */
module Odbc {
  import opened Outcomes
  import opened Text
  import opened Numerals

  // ----- quoting -----

  function Doubled(value: string): string {
    if value == "" then ""
    else (if value[0] == '}' then "}}" else [value[0]]) + Doubled(value[1..])
  }

  function Escape(value: string): string {
    "{" + Doubled(value) + "}"
  }

  // ----- reading a quoted value from the left -----

  datatype Reading = Reading(value: string, rest: string)

  /** The characters up to the first closing brace that is not doubled. */
  function ReadBody(s: string): Option<Reading>
    decreases |s|
  {
    if s == "" then None
    else if s[0] != '}' then
      var r := ReadBody(s[1..]);
      if r.None? then None else Some(Reading([s[0]] + r.value.value, r.value.rest))
    else if |s| > 1 && s[1] == '}' then
      var r := ReadBody(s[2..]);
      if r.None? then None else Some(Reading("}" + r.value.value, r.value.rest))
    else Some(Reading("", s[1..]))
  }

  function ReadBraced(s: string): Option<Reading> {
    if s != "" && s[0] == '{' then ReadBody(s[1..]) else None
  }

  predicate EndsBrace(rest: string) {
    rest == "" || rest[0] != '}'
  }

  lemma {:induction false} DoubledReads(value: string, rest: string)
    requires EndsBrace(rest)
    ensures ReadBody(Doubled(value) + "}" + rest) == Some(Reading(value, rest))
  {
    if value == "" {
      assert (Doubled(value) + "}" + rest)[1..] == rest;
    } else {
      var tail := Doubled(value[1..]) + "}" + rest;
      DoubledReads(value[1..], rest);
      assert value == [value[0]] + value[1..];
      if value[0] == '}' {
        assert Doubled(value) + "}" + rest == "}}" + tail;
        assert ("}}" + tail)[2..] == tail;
      } else {
        assert Doubled(value) + "}" + rest == [value[0]] + tail;
        assert ([value[0]] + tail)[1..] == tail;
      }
    }
  }

  lemma {:induction false} ReadIsDoubled(s: string)
    requires ReadBody(s).Some?
    ensures var r := ReadBody(s).value; s == Doubled(r.value) + "}" + r.rest && EndsBrace(r.rest)
    decreases |s|
  {
    var r := ReadBody(s).value;
    if s[0] != '}' {
      ReadIsDoubled(s[1..]);
      assert r.value[1..] == ReadBody(s[1..]).value.value;
    } else if |s| > 1 && s[1] == '}' {
      ReadIsDoubled(s[2..]);
      assert r.value[1..] == ReadBody(s[2..]).value.value;
      assert Doubled(r.value) == "}}" + Doubled(r.value[1..]);
    }
  }

  /** Reading undoes quoting, and succeeds on nothing but quoted values. */
  lemma ReadingIsExact(s: string, value: string, rest: string)
    ensures ReadBraced(s) == Some(Reading(value, rest)) <==> s == Escape(value) + rest && EndsBrace(rest)
  {
    if ReadBraced(s) == Some(Reading(value, rest)) {
      ReadIsDoubled(s[1..]);
      assert s == "{" + s[1..];
    }
    if s == Escape(value) + rest && EndsBrace(rest) {
      DoubledReads(value, rest);
      assert s[1..] == Doubled(value) + "}" + rest;
    }
  }

  /** Different values are quoted differently, and no quoted value is cut short by what follows it. */
  lemma QuotingIsUnique(v: string, restOfV: string, w: string, restOfW: string)
    requires EndsBrace(restOfV) && EndsBrace(restOfW)
    requires Escape(v) + restOfV == Escape(w) + restOfW
    ensures v == w && restOfV == restOfW
  {
    ReadingIsExact(Escape(v) + restOfV, v, restOfV);
    ReadingIsExact(Escape(v) + restOfV, w, restOfW);
  }

  // ----- the recogniser's pattern for quoted values (app/error_reporting.py:9) -----

  datatype Pieces = NoPieces | Brace(tail: Pieces) | Other(c: char, tail: Pieces)

  predicate PiecesFit(pieces: Pieces) {
    match pieces
    case NoPieces => true
    case Brace(tail) => PiecesFit(tail)
    case Other(c, tail) => c != '}' && PiecesFit(tail)
  }

  function PiecesText(pieces: Pieces): string {
    match pieces
    case NoPieces => ""
    case Brace(tail) => "}}" + PiecesText(tail)
    case Other(c, tail) => [c] + PiecesText(tail)
  }

  /** An opening brace, doubled closing braces or other characters, a closing brace. */
  ghost predicate IsBracedWord(w: string) {
    exists pieces :: PiecesFit(pieces) && w == "{" + PiecesText(pieces) + "}"
  }

  function PiecesOf(value: string): (pieces: Pieces)
    ensures PiecesFit(pieces) && PiecesText(pieces) == Doubled(value)
  {
    if value == "" then NoPieces
    else if value[0] == '}' then Brace(PiecesOf(value[1..]))
    else Other(value[0], PiecesOf(value[1..]))
  }

  lemma {:induction false} PiecesAreDoubled(pieces: Pieces) returns (value: string)
    requires PiecesFit(pieces)
    ensures Doubled(value) == PiecesText(pieces)
  {
    match pieces
    case NoPieces =>
      value := "";
    case Brace(tail) =>
      var rest := PiecesAreDoubled(tail);
      value := "}" + rest;
      assert value[1..] == rest;
    case Other(c, tail) =>
      var rest := PiecesAreDoubled(tail);
      value := [c] + rest;
      assert value[1..] == rest;
  }

  /** The words the pattern accepts are the quoted values. */
  lemma BracedWordsAreQuoted(w: string)
    ensures IsBracedWord(w) <==> exists v :: Escape(v) == w
  {
    if IsBracedWord(w) {
      var pieces :| PiecesFit(pieces) && w == "{" + PiecesText(pieces) + "}";
      var v := PiecesAreDoubled(pieces);
      assert Escape(v) == w;
    }
    if v :| Escape(v) == w {
      assert PiecesFit(PiecesOf(v));
    }
  }

  /** Where the pattern may end its match: at a word, before `;`, a space or the end. */
  ghost predicate PatternMatches(s: string, n: nat) {
    && n <= |s| && IsBracedWord(s[..n])
    && (n < |s| ==> s[n] != '}' && (s[n] == ';' || IsSpace(s[n])))
  }

  /** The pattern finds the quoted value and nothing else, whatever the value contains. */
  lemma PatternFindsQuotedValue(value: string, rest: string, n: nat)
    requires rest == "" || rest[0] == ';'
    ensures PatternMatches(Escape(value) + rest, n) <==> n == |Escape(value)|
  {
    var s, quoted := Escape(value) + rest, Escape(value);
    assert s[..|quoted|] == quoted;
    BracedWordsAreQuoted(quoted);
    if PatternMatches(s, n) {
      BracedWordsAreQuoted(s[..n]);
      var v :| Escape(v) == s[..n];
      assert s == Escape(v) + s[n..];
      QuotingIsUnique(value, rest, v, s[n..]);
    }
  }

  // ----- connection strings -----

  datatype Attribute = Attribute(keyword: string, value: string)

  function Until(s: string, c: char): (n: nat)
    ensures n <= |s| && (n < |s| ==> s[n] == c)
  {
    if s == "" || s[0] == c then 0 else 1 + Until(s[1..], c)
  }

  /** What follows the semicolon that ends an attribute. */
  function Rest(s: string): (r: string)
    ensures |r| <= |s|
  {
    if s != "" && s[0] == ';' then s[1..] else ""
  }

  datatype AttributeReading = AttributeReading(attribute: Attribute, rest: string)

  /** A keyword, `=`, a quoted value or all up to the next semicolon. */
  function ReadAttribute(s: string): Option<AttributeReading> {
    var n := Until(s, '=');
    if n == |s| then None else ReadValue(s[..n], s[n + 1..])
  }

  function ReadValue(keyword: string, text: string): Option<AttributeReading> {
    if text != "" && text[0] == '{' then
      var r := ReadBraced(text);
      if r.None? then None else Some(AttributeReading(Attribute(keyword, r.value.value), Rest(r.value.rest)))
    else
      var m := Until(text, ';');
      Some(AttributeReading(Attribute(keyword, text[..m]), Rest(text[m..])))
  }

  lemma ReadAttributeIsShorter(s: string)
    ensures ReadAttribute(s).Some? ==> |ReadAttribute(s).value.rest| < |s|
  {
    var n := Until(s, '=');
    if n < |s| && n + 1 < |s| && s[n + 1] == '{' {
      ReadIsShorter(s[n + 1..][1..]);
    }
  }

  lemma {:induction false} ReadIsShorter(s: string)
    ensures ReadBody(s).Some? ==> |ReadBody(s).value.rest| < |s|
  {
    if ReadBody(s).Some? {
      ReadIsDoubled(s);
    }
  }

  /** The attributes of a connection string. */
  function Attributes(s: string): seq<Attribute>
    decreases |s|
  {
    ReadAttributeIsShorter(s);
    var r := ReadAttribute(s);
    if r.None? then [] else [r.value.attribute] + Attributes(r.value.rest)
  }

  function Segment(a: Attribute): string {
    a.keyword + "=" + Escape(a.value) + ";"
  }

  function Segments(attributes: seq<Attribute>): string {
    if attributes == [] then "" else Segment(attributes[0]) + Segments(attributes[1..])
  }

  lemma {:induction false} UntilSkips(s: string, rest: string, c: char)
    requires c !in s && rest != "" && rest[0] == c
    ensures Until(s + rest, c) == |s|
  {
    if s == "" {
      assert s + rest == rest;
    } else {
      assert (s + rest)[1..] == s[1..] + rest;
      UntilSkips(s[1..], rest, c);
    }
  }

  lemma KeywordReads(keyword: string, text: string)
    requires '=' !in keyword
    ensures ReadAttribute(keyword + ("=" + text)) == ReadValue(keyword, text)
  {
    var s := keyword + ("=" + text);
    UntilSkips(keyword, "=" + text, '=');
    assert s[..|keyword|] == keyword;
    assert s[|keyword| + 1..] == text;
  }

  lemma ValueReads(keyword: string, value: string, rest: string)
    requires rest != "" && rest[0] == ';'
    ensures ReadValue(keyword, Escape(value) + rest) == Some(AttributeReading(Attribute(keyword, value), rest[1..]))
  {
    ReadingIsExact(Escape(value) + rest, value, rest);
  }

  lemma SegmentIs(a: Attribute, tail: string)
    ensures Segment(a) + tail == a.keyword + ("=" + (Escape(a.value) + (";" + tail)))
  {
  }

  /** A quoted segment is read as its keyword and value, and reading goes on right after it. */
  lemma SegmentReads(a: Attribute, tail: string)
    requires '=' !in a.keyword
    ensures ReadAttribute(Segment(a) + tail) == Some(AttributeReading(a, tail))
  {
    SegmentIs(a, tail);
    KeywordReads(a.keyword, Escape(a.value) + (";" + tail));
    ValueReads(a.keyword, a.value, ";" + tail);
    assert (";" + tail)[1..] == tail;
  }

  lemma AttributesStep(s: string, a: Attribute, rest: string)
    requires ReadAttribute(s) == Some(AttributeReading(a, rest))
    ensures Attributes(s) == [a] + Attributes(rest)
  {
  }

  lemma Regroup(x: string, y: string, z: string)
    ensures (x + y) + z == x + (y + z)
  {
  }

  predicate Keywords(attributes: seq<Attribute>) {
    forall i :: 0 <= i < |attributes| ==> '=' !in attributes[i].keyword
  }

  lemma {:induction false} SegmentsRead(attributes: seq<Attribute>, tail: string)
    requires Keywords(attributes)
    ensures Attributes(Segments(attributes) + tail) == attributes + Attributes(tail)
  {
    if attributes == [] {
      assert Segments(attributes) + tail == tail;
    } else {
      var rest := Segments(attributes[1..]) + tail;
      SegmentStarts(attributes, tail, rest);
      SegmentsRead(attributes[1..], tail);
      Prepended(attributes, Segments(attributes) + tail, rest, Attributes(tail));
    }
  }

  lemma Prepended(attributes: seq<Attribute>, s: string, rest: string, others: seq<Attribute>)
    requires attributes != [] && ReadAttribute(s) == Some(AttributeReading(attributes[0], rest))
    requires Attributes(rest) == attributes[1..] + others
    ensures Attributes(s) == attributes + others
  {
    AttributesStep(s, attributes[0], rest);
    FirstAndOthers(attributes, others);
  }

  lemma FirstAndOthers(attributes: seq<Attribute>, others: seq<Attribute>)
    requires attributes != []
    ensures attributes + others == [attributes[0]] + (attributes[1..] + others)
  {
  }

  lemma SegmentStarts(attributes: seq<Attribute>, tail: string, rest: string)
    requires attributes != [] && Keywords(attributes) && rest == Segments(attributes[1..]) + tail
    ensures ReadAttribute(Segments(attributes) + tail) == Some(AttributeReading(attributes[0], rest))
  {
    Regroup(Segment(attributes[0]), Segments(attributes[1..]), tail);
    SegmentReads(attributes[0], rest);
  }

  datatype Settings = Settings(driver: string, host: string, port: int, serverOverride: string, database: string,
    username: string, password: string, encrypt: string, trustServerCertificate: string, connectTimeout: int,
    extraParams: string)

  function Server(settings: Settings): string {
    var override := Strip(settings.serverOverride);
    if override != "" then override else settings.host + "," + IntText(settings.port)
  }

  function Terminated(parts: seq<string>): string {
    if parts == [] then "" else parts[0] + ";" + Terminated(parts[1..])
  }

  function NormalizeExtraParams(extraParams: string): string {
    Terminated(StrippedNonEmpty(Split(extraParams, {';'})))
  }

  /** A segment whose value is not quoted. */
  function BareSegment(a: Attribute): string {
    a.keyword + "=" + a.value + ";"
  }

  function BareSegments(attributes: seq<Attribute>): string {
    if attributes == [] then "" else BareSegment(attributes[0]) + BareSegments(attributes[1..])
  }

  function UnquotedSettings(settings: Settings): seq<Attribute> {
    [Attribute("Encrypt", settings.encrypt),
     Attribute("TrustServerCertificate", settings.trustServerCertificate),
     Attribute("Connection Timeout", IntText(settings.connectTimeout))]
  }

  function UnquotedPart(settings: Settings): string {
    BareSegments(UnquotedSettings(settings)) + NormalizeExtraParams(settings.extraParams)
  }

  function QuotedSettings(settings: Settings): seq<Attribute> {
    [Attribute("DRIVER", settings.driver), Attribute("SERVER", Server(settings)),
     Attribute("DATABASE", settings.database), Attribute("UID", settings.username),
     Attribute("PWD", settings.password)]
  }

  function ConnectionString(settings: Settings): string {
    Segments(QuotedSettings(settings)) + UnquotedPart(settings)
  }

  /** The first attribute of a keyword. */
  function Lookup(attributes: seq<Attribute>, keyword: string): Option<string> {
    if attributes == [] then None
    else if attributes[0].keyword == keyword then Some(attributes[0].value)
    else Lookup(attributes[1..], keyword)
  }

  /** The five quoted settings are read back as given, whatever they and the other settings contain;
      in particular no other setting comes before them. */
  lemma QuotedSettingsReadBack(settings: Settings)
    ensures Attributes(ConnectionString(settings)) ==
      QuotedSettings(settings) + Attributes(UnquotedPart(settings))
    ensures forall a :: a in QuotedSettings(settings) ==>
      Lookup(Attributes(ConnectionString(settings)), a.keyword) == Some(a.value)
  {
    QuotedSettingsFit(settings);
    SegmentsReadBack(QuotedSettings(settings), UnquotedPart(settings));
  }

  /** By keyword: every quoted setting is found under its own name. */
  lemma QuotedSettingsByKeyword(settings: Settings)
    ensures var all := Attributes(ConnectionString(settings));
      && Lookup(all, "DRIVER") == Some(settings.driver)
      && Lookup(all, "DATABASE") == Some(settings.database)
      && Lookup(all, "UID") == Some(settings.username)
      && Lookup(all, "PWD") == Some(settings.password)
      && Lookup(all, "SERVER") == Some(
           if Strip(settings.serverOverride) != "" then Strip(settings.serverOverride)
           else settings.host + "," + IntText(settings.port))
  {
    QuotedSettingsReadBack(settings);
    assert Attribute("DRIVER", settings.driver) in QuotedSettings(settings);
    assert Attribute("DATABASE", settings.database) in QuotedSettings(settings);
    assert Attribute("UID", settings.username) in QuotedSettings(settings);
    assert Attribute("PWD", settings.password) in QuotedSettings(settings);
    var server := if Strip(settings.serverOverride) != "" then Strip(settings.serverOverride)
      else settings.host + "," + IntText(settings.port);
    assert Attribute("SERVER", server) in QuotedSettings(settings);
  }

  /** A value that can stand without quotes. */
  predicate Bare(value: string) {
    ';' !in value && (value == "" || value[0] != '{')
  }

  lemma BareReads(a: Attribute, tail: string)
    requires '=' !in a.keyword && Bare(a.value)
    ensures ReadAttribute(BareSegment(a) + tail) == Some(AttributeReading(a, tail))
  {
    var text := a.value + (";" + tail);
    assert BareSegment(a) + tail == a.keyword + ("=" + text);
    KeywordReads(a.keyword, text);
    BareValueReads(a.keyword, a.value, ";" + tail);
    assert (";" + tail)[1..] == tail;
  }

  lemma BareValueReads(keyword: string, value: string, rest: string)
    requires Bare(value) && rest != "" && rest[0] == ';'
    ensures ReadValue(keyword, value + rest) == Some(AttributeReading(Attribute(keyword, value), rest[1..]))
  {
    UntilSkips(value, rest, ';');
    assert (value + rest)[..|value|] == value && (value + rest)[|value|..] == rest;
  }

  predicate AllBare(attributes: seq<Attribute>) {
    forall i :: 0 <= i < |attributes| ==> Bare(attributes[i].value)
  }

  lemma {:induction false} BareSegmentsRead(attributes: seq<Attribute>, tail: string)
    requires Keywords(attributes) && AllBare(attributes)
    ensures Attributes(BareSegments(attributes) + tail) == attributes + Attributes(tail)
  {
    if attributes == [] {
      assert BareSegments(attributes) + tail == tail;
    } else {
      var rest := BareSegments(attributes[1..]) + tail;
      Regroup(BareSegment(attributes[0]), BareSegments(attributes[1..]), tail);
      BareReads(attributes[0], rest);
      BareSegmentsRead(attributes[1..], tail);
      Prepended(attributes, BareSegments(attributes) + tail, rest, Attributes(tail));
    }
  }

  lemma IntTextIsBare(n: int)
    ensures Bare(IntText(n))
  {
    var digits := Decimal(if n < 0 then -n else n);
    DecimalDigits(if n < 0 then -n else n);
    assert IntText(n)[0] == '-' || (digits != [] && IntText(n)[0] == digits[0] && digits[0] in digits);
  }

  lemma UnquotedKeywordsFit(settings: Settings)
    ensures Keywords(UnquotedSettings(settings)) && Distinct(UnquotedSettings(settings))
  {
    var keywords := ["Encrypt", "TrustServerCertificate", "Connection Timeout"];
    assert keywords[0][0] == 'E' && keywords[1][0] == 'T' && keywords[2][0] == 'C';
    assert forall i :: 0 <= i < 3 ==> UnquotedSettings(settings)[i].keyword == keywords[i];
  }

  /** The settings that are not quoted are found under their own names as well, if they can stand without
      quotes; the timeout always can. */
  lemma UnquotedSettingsByKeyword(settings: Settings)
    requires Bare(settings.encrypt) && Bare(settings.trustServerCertificate)
    ensures var unquoted := Attributes(UnquotedPart(settings));
      && unquoted == UnquotedSettings(settings) + Attributes(NormalizeExtraParams(settings.extraParams))
      && Lookup(unquoted, "Encrypt") == Some(settings.encrypt)
      && Lookup(unquoted, "TrustServerCertificate") == Some(settings.trustServerCertificate)
      && Lookup(unquoted, "Connection Timeout") == Some(IntText(settings.connectTimeout))
  {
    var quiet, extra := UnquotedSettings(settings), NormalizeExtraParams(settings.extraParams);
    UnquotedKeywordsFit(settings);
    IntTextIsBare(settings.connectTimeout);
    BareSegmentsRead(quiet, extra);
    AllAreFound(quiet, Attributes(extra));
    assert Attribute("Encrypt", settings.encrypt) in quiet;
    assert Attribute("TrustServerCertificate", settings.trustServerCertificate) in quiet;
    assert Attribute("Connection Timeout", IntText(settings.connectTimeout)) in quiet;
  }

  predicate Distinct(attributes: seq<Attribute>) {
    forall i, j :: 0 <= i < j < |attributes| ==> attributes[i].keyword != attributes[j].keyword
  }

  lemma QuotedSettingsFit(settings: Settings)
    ensures Keywords(QuotedSettings(settings)) && Distinct(QuotedSettings(settings))
  {
    var keywords := ["DRIVER", "SERVER", "DATABASE", "UID", "PWD"];
    assert keywords[0][0] == 'D' && keywords[1][0] == 'S' && keywords[2][0] == 'D' && keywords[0][1] != keywords[2][1];
    assert keywords[3][0] == 'U' && keywords[4][0] == 'P';
    assert forall i :: 0 <= i < 5 ==> QuotedSettings(settings)[i].keyword == keywords[i];
  }

  lemma SegmentsReadBack(attributes: seq<Attribute>, tail: string)
    requires Keywords(attributes) && Distinct(attributes)
    ensures var all := Attributes(Segments(attributes) + tail);
      && all == attributes + Attributes(tail)
      && forall a :: a in attributes ==> Lookup(all, a.keyword) == Some(a.value)
  {
    SegmentsRead(attributes, tail);
    AllAreFound(attributes, Attributes(tail));
  }

  lemma AllAreFound(attributes: seq<Attribute>, others: seq<Attribute>)
    requires Distinct(attributes)
    ensures forall a :: a in attributes ==> Lookup(attributes + others, a.keyword) == Some(a.value)
  {
    forall a | a in attributes
      ensures Lookup(attributes + others, a.keyword) == Some(a.value)
    {
      var n :| 0 <= n < |attributes| && attributes[n] == a;
      FirstIsFound(attributes, others, n);
    }
  }

  lemma {:induction false} FirstIsFound(attributes: seq<Attribute>, others: seq<Attribute>, n: nat)
    requires n < |attributes|
    requires forall i :: 0 <= i < n ==> attributes[i].keyword != attributes[n].keyword
    ensures Lookup(attributes + others, attributes[n].keyword) == Some(attributes[n].value)
  {
    if n > 0 {
      assert (attributes + others)[1..] == attributes[1..] + others;
      FirstIsFound(attributes[1..], others, n - 1);
    }
  }

  // ----- extra parameters -----

  predicate Plain(part: string) {
    part != "" && Trimmed(part) && ';' !in part
  }

  lemma {:induction false} SplitPieces(s: string, i: nat)
    requires i < |Split(s, {';'})|
    ensures ';' !in Split(s, {';'})[i]
  {
    if s != "" {
      var rest := Split(s[1..], {';'});
      if s[0] == ';' {
        if i > 0 { SplitPieces(s[1..], i - 1); }
      } else {
        SplitPieces(s[1..], i);
      }
    }
  }

  lemma {:induction false} StrippedPlain(pieces: seq<string>, i: nat)
    requires forall j :: 0 <= j < |pieces| ==> ';' !in pieces[j]
    requires i < |StrippedNonEmpty(pieces)|
    ensures Plain(StrippedNonEmpty(pieces)[i])
  {
    StrippedNonEmptyIs(pieces, i);
    var rest := StrippedNonEmpty(pieces[1..]);
    var piece := Strip(pieces[0]);
    StripLeftIs(pieces[0]);
    StripRightIs(StripLeft(pieces[0]));
    if piece == "" {
      StrippedPlain(pieces[1..], i);
    } else if i > 0 {
      StrippedPlain(pieces[1..], i - 1);
    }
  }

  lemma {:induction false} SplitPart(part: string, rest: string)
    requires ';' !in part
    ensures Split(part + ";" + rest, {';'}) == [part] + Split(rest, {';'})
  {
    var s := part + ";" + rest;
    if part == "" {
      assert s[1..] == rest;
    } else {
      assert s[1..] == part[1..] + ";" + rest;
      SplitPart(part[1..], rest);
      assert Split(s[1..], {';'})[1..] == Split(rest, {';'});
      assert [s[0]] + part[1..] == part;
    }
  }

  lemma {:induction false} TerminatedSplits(parts: seq<string>)
    requires forall i :: 0 <= i < |parts| ==> Plain(parts[i])
    ensures StrippedNonEmpty(Split(Terminated(parts), {';'})) == parts
  {
    if parts == [] {
      assert StrippedNonEmpty([""][1..]) == [];
    } else {
      SplitPart(parts[0], Terminated(parts[1..]));
      TerminatedSplits(parts[1..]);
      StripTrims(parts[0]);
      var pieces := Split(Terminated(parts), {';'});
      assert pieces[1..] == Split(Terminated(parts[1..]), {';'});
    }
  }

  /** Normalising keeps the parameters and their order, and changes nothing the second time. */
  lemma NormalizedAgain(extraParams: string)
    ensures var parts := StrippedNonEmpty(Split(extraParams, {';'}));
      StrippedNonEmpty(Split(NormalizeExtraParams(extraParams), {';'})) == parts
    ensures NormalizeExtraParams(NormalizeExtraParams(extraParams)) == NormalizeExtraParams(extraParams)
  {
    var pieces := Split(extraParams, {';'});
    forall j | 0 <= j < |pieces|
      ensures ';' !in pieces[j]
    {
      SplitPieces(extraParams, j);
    }
    var parts := StrippedNonEmpty(pieces);
    forall i | 0 <= i < |parts|
      ensures Plain(parts[i])
    {
      StrippedPlain(pieces, i);
    }
    TerminatedSplits(parts);
  }
}
