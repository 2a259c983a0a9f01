/** The artifact key by key and character by character, and every way in which it is refused. */
module FormatExact {
  import opened Wrappers
  import opened Ordering
  import opened Decimal
  import opened Timestamps
  import opened Observations
  import opened Json
  import opened ReplayFormat

  // ---- What is written ----

  /** The names of an object are these, each once. */
  ghost predicate HasExactly(fields: seq<Field>, names: set<string>) {
    && DistinctNames(fields)
    && forall key :: Has(fields, key) <==> key in names
  }

  predicate TextAt(fields: seq<Field>, key: string, text: string) {
    Get(fields, key) == Some(Str(text))
  }

  ghost predicate ProvenanceWritten(value: Option<Json>, p: Provenance) {
    && value.Some? && value.value.Object?
    && var fields := value.value.fields;
       && HasExactly(fields, {"provider", "collection_method", "observed_at", "source_run"})
       && TextAt(fields, "provider", p.provider) && TextAt(fields, "collection_method", p.collectionMethod)
       && TextAt(fields, "observed_at", IsoFormat(p.observedAt)) && TextAt(fields, "source_run", p.sourceRun)
  }

  ghost predicate IdentityWritten(fields: seq<Field>, i: IdentityObservation) {
    && HasExactly(fields, {"type", "subject", "property_name", "value", "provenance"})
    && TextAt(fields, "type", "identity") && TextAt(fields, "subject", i.subject)
    && TextAt(fields, "property_name", i.propertyName) && TextAt(fields, "value", i.value)
    && ProvenanceWritten(Get(fields, "provenance"), i.provenance)
  }

  ghost predicate RelationshipWritten(fields: seq<Field>, r: RelationshipObservation) {
    && HasExactly(fields, {"type", "subject", "related_subject", "category", "provenance"})
    && TextAt(fields, "type", "relationship") && TextAt(fields, "subject", r.subject)
    && TextAt(fields, "related_subject", r.relatedSubject) && TextAt(fields, "category", r.category)
    && ProvenanceWritten(Get(fields, "provenance"), r.provenance)
  }

  ghost predicate RecordWritten(record: Json, o: Observation) {
    && record.Object?
    && match o
       case Identity(i) => IdentityWritten(record.fields, i)
       case Relationship(r) => RelationshipWritten(record.fields, r)
  }

  ghost predicate RecordsWritten(records: seq<Json>, os: seq<Observation>) {
    |records| == |os| && forall i :: 0 <= i < |os| ==> RecordWritten(records[i], os[i])
  }

  ghost predicate DocumentWritten(document: Json, os: seq<Observation>) {
    && document.Object?
    && var fields := document.fields;
       && HasExactly(fields, {"format", "format_version", "observations"})
       && TextAt(fields, "format", "networkmapper.retained-observations")
       && Get(fields, "format_version") == Some(Integer(1))
       && var records := Get(fields, "observations");
          records.Some? && records.value.Array? && RecordsWritten(records.value.items, os)
  }

  ghost predicate AllWritten(fields: seq<Field>, gs: seq<Field>) {
    forall g :: g in gs ==> CarriesValue(fields, g)
  }

  ghost function NamesOf(gs: seq<Field>): set<string> {
    set g | g in gs :: g.key
  }

  lemma HasName(gs: seq<Field>, key: string)
    ensures Has(gs, key) <==> key in NamesOf(gs)
  {
  }

  lemma SameContentNames(fields: seq<Field>, gs: seq<Field>, names: set<string>)
    requires names == NamesOf(gs)
    ensures SameContent(fields, gs) <==> HasExactly(fields, names) && AllWritten(fields, gs)
  {
    if SameContent(fields, gs) {
      forall key ensures Has(fields, key) <==> key in names {
        HasName(gs, key);
        if g :| g in gs && g.key == key {
          assert CarriesValue(fields, g);
          HasIffGet(fields, key);
        }
      }
    }
    if HasExactly(fields, names) && AllWritten(fields, gs) {
      forall f | f in fields ensures Has(gs, f.key) { assert Has(fields, f.key); HasName(gs, f.key); }
    }
  }

  lemma CarriesStr(fields: seq<Field>, key: string, text: string)
    ensures CarriesValue(fields, Field(key, Str(text))) <==> TextAt(fields, key, text)
  {
  }

  lemma ProvenanceLiteral(fields: seq<Field>, p: Provenance)
    ensures SameContent(fields, ProvenanceFields(p)) <==> ProvenanceWritten(Some(Object(fields)), p)
  {
    var gs := ProvenanceFields(p);
    assert gs == [Field("provider", Str(p.provider)), Field("collection_method", Str(p.collectionMethod)),
                  Field("observed_at", Str(IsoFormat(p.observedAt))), Field("source_run", Str(p.sourceRun))];
    var names := {"provider", "collection_method", "observed_at", "source_run"};
    assert NamesOf(gs) == names by {
      forall name ensures name in NamesOf(gs) <==> name in names {
        assert gs[0] in gs && gs[1] in gs && gs[2] in gs && gs[3] in gs;
      }
    }
    SameContentNames(fields, gs, names);
    FourCarried(fields, gs[0], gs[1], gs[2], gs[3]);
    CarriesStr(fields, "provider", p.provider);
    CarriesStr(fields, "collection_method", p.collectionMethod);
    CarriesStr(fields, "observed_at", IsoFormat(p.observedAt));
    CarriesStr(fields, "source_run", p.sourceRun);
  }

  lemma FourCarried(fields: seq<Field>, a: Field, b: Field, c: Field, d: Field)
    ensures AllWritten(fields, [a, b, c, d]) <==>
      CarriesValue(fields, a) && CarriesValue(fields, b) && CarriesValue(fields, c) && CarriesValue(fields, d)
  {
    var gs := [a, b, c, d];
    assert gs[0] in gs && gs[1] in gs && gs[2] in gs && gs[3] in gs;
  }

  lemma FiveCarried(fields: seq<Field>, a: Field, b: Field, c: Field, d: Field, e: Field)
    ensures AllWritten(fields, [a, b, c, d, e]) <==>
      && CarriesValue(fields, a) && CarriesValue(fields, b) && CarriesValue(fields, c) && CarriesValue(fields, d)
      && CarriesValue(fields, e)
  {
    var gs := [a, b, c, d, e];
    assert gs[0] in gs && gs[1] in gs && gs[2] in gs && gs[3] in gs && gs[4] in gs;
  }

  lemma FiveNames(a: Field, b: Field, c: Field, d: Field, e: Field)
    ensures NamesOf([a, b, c, d, e]) == {a.key, b.key, c.key, d.key, e.key}
  {
    var gs := [a, b, c, d, e];
    forall name ensures name in NamesOf(gs) <==> name in {a.key, b.key, c.key, d.key, e.key} {
      assert gs[0] in gs && gs[1] in gs && gs[2] in gs && gs[3] in gs && gs[4] in gs;
    }
  }

  lemma ProvenanceCarried(fields: seq<Field>, p: Provenance)
    ensures CarriesValue(fields, Field("provenance", Object(ProvenanceFields(p)))) <==>
      ProvenanceWritten(Get(fields, "provenance"), p)
  {
    ProvenanceNamesDistinct(p);
    NestedCarried(fields, Field("provenance", Object(ProvenanceFields(p))), ProvenanceFields(p));
    var nested := Get(fields, "provenance");
    if nested.Some? && nested.value.Object? { ProvenanceLiteral(nested.value.fields, p); }
  }

  lemma IdentityLiteral(fields: seq<Field>, i: IdentityObservation)
    ensures SameContent(fields, RecordFields(Identity(i))) <==> IdentityWritten(fields, i)
  {
    var gs := RecordFields(Identity(i));
    var nested := Field("provenance", Object(ProvenanceFields(i.provenance)));
    assert gs == [Field("type", Str("identity")), Field("subject", Str(i.subject)),
                  Field("property_name", Str(i.propertyName)), Field("value", Str(i.value)), nested];
    FiveNames(gs[0], gs[1], gs[2], gs[3], gs[4]);
    SameContentNames(fields, gs, {"type", "subject", "property_name", "value", "provenance"});
    FiveCarried(fields, gs[0], gs[1], gs[2], gs[3], gs[4]);
    CarriesStr(fields, "type", "identity");
    CarriesStr(fields, "subject", i.subject);
    CarriesStr(fields, "property_name", i.propertyName);
    CarriesStr(fields, "value", i.value);
    ProvenanceCarried(fields, i.provenance);
  }

  lemma RelationshipLiteral(fields: seq<Field>, r: RelationshipObservation)
    ensures SameContent(fields, RecordFields(Relationship(r))) <==> RelationshipWritten(fields, r)
  {
    var gs := RecordFields(Relationship(r));
    var nested := Field("provenance", Object(ProvenanceFields(r.provenance)));
    assert gs == [Field("type", Str("relationship")), Field("subject", Str(r.subject)),
                  Field("related_subject", Str(r.relatedSubject)), Field("category", Str(r.category)), nested];
    FiveNames(gs[0], gs[1], gs[2], gs[3], gs[4]);
    SameContentNames(fields, gs, {"type", "subject", "related_subject", "category", "provenance"});
    FiveCarried(fields, gs[0], gs[1], gs[2], gs[3], gs[4]);
    CarriesStr(fields, "type", "relationship");
    CarriesStr(fields, "subject", r.subject);
    CarriesStr(fields, "related_subject", r.relatedSubject);
    CarriesStr(fields, "category", r.category);
    ProvenanceCarried(fields, r.provenance);
  }

  /** A record prints like the writer's exactly when it holds the writer's names, each once, with these values. */
  lemma RecordLiteral(record: Json, o: Observation)
    ensures SortKeys(record) == SortKeys(ToRecord(o)) <==> RecordWritten(record, o)
  {
    if record.Object? {
      WriterNamesDistinct(o);
      ObjectsPrintAlike(record.fields, RecordFields(o));
      match o
      case Identity(i) => IdentityLiteral(record.fields, i);
      case Relationship(r) => RelationshipLiteral(record.fields, r);
    }
  }

  lemma RecordsLiteral(records: seq<Json>, os: seq<Observation>)
    ensures PrintAlike(records, os) <==> RecordsWritten(records, os)
  {
    if |records| == |os| {
      forall i | 0 <= i < |os| ensures SortKeys(records[i]) == SortKeys(ToRecord(os[i])) <==> RecordWritten(records[i], os[i]) {
        RecordLiteral(records[i], os[i]);
      }
    }
  }

  lemma TopLevelLiteral(fields: seq<Field>, os: seq<Observation>)
    ensures SameContent(fields, DocumentFields(Records(os))) <==> DocumentWritten(Object(fields), os)
  {
    var gs := DocumentFields(Records(os));
    assert gs == [Field("format", Str("networkmapper.retained-observations")), Field("format_version", Integer(1)),
                  Field("observations", Array(Records(os)))];
    var names := {"format", "format_version", "observations"};
    assert NamesOf(gs) == names by {
      forall name ensures name in NamesOf(gs) <==> name in names {
        assert gs[0] in gs && gs[1] in gs && gs[2] in gs;
      }
    }
    SameContentNames(fields, gs, names);
    ThreeCarried(fields, gs[0], gs[1], gs[2]);
    CarriesStr(fields, "format", "networkmapper.retained-observations");
    ArrayCarried(fields, os);
    var records := Get(fields, "observations");
    if records.Some? && records.value.Array? { RecordsLiteral(records.value.items, os); }
  }

  lemma ThreeCarried(fields: seq<Field>, a: Field, b: Field, c: Field)
    ensures AllWritten(fields, [a, b, c]) <==>
      CarriesValue(fields, a) && CarriesValue(fields, b) && CarriesValue(fields, c)
  {
    var gs := [a, b, c];
    assert gs[0] in gs && gs[1] in gs && gs[2] in gs;
  }

  /** The tree of an artifact, name by name: a document is the writer's for `os`, up to the order of keys, exactly
      when it holds the format's name, version 1 and one record with the right names and values per observation. */
  lemma DocumentLiteral(document: Json, os: seq<Observation>)
    ensures SortKeys(document) == Document(os) <==> DocumentWritten(document, os)
  {
    if document.Object? {
      DocumentNamesDistinct(Records(os));
      ObjectsPrintAlike(document.fields, DocumentFields(Records(os)));
      TopLevelLiteral(document.fields, os);
    }
  }

  // ---- What is refused ----

  /** The first of the expected names that the object does not have. */
  ghost predicate MissesFirst(fields: seq<Field>, expected: seq<string>, key: string) {
    exists i :: 0 <= i < |expected| && expected[i] == key && !Has(fields, key)
                && forall j :: 0 <= j < i ==> Has(fields, expected[j])
  }

  ghost predicate HasAll(fields: seq<Field>, expected: seq<string>) {
    forall i :: 0 <= i < |expected| ==> Has(fields, expected[i])
  }

  /** The first, in the order of strings, of the names that are not expected. */
  ghost predicate FirstUnknown(fields: seq<Field>, expected: seq<string>, key: string) {
    && Has(fields, key) && key !in expected
    && forall f :: f in fields && f.key !in expected ==> StringLe(key, f.key)
  }

  ghost predicate NoUnknown(fields: seq<Field>, expected: seq<string>) {
    forall f :: f in fields ==> f.key in expected
  }

  /** What is wrong with an object's names: one is missing, or, when none is, one is unknown. */
  ghost predicate KeysWrong(fields: seq<Field>, expected: seq<string>, problem: RecordError) {
    match problem
    case MissingKey(key) => MissesFirst(fields, expected, key)
    case UnknownKey(key) => HasAll(fields, expected) && FirstUnknown(fields, expected, key)
    case _ => false
  }

  ghost predicate KeysRight(fields: seq<Field>, expected: seq<string>) {
    HasAll(fields, expected) && NoUnknown(fields, expected)
  }

  lemma {:induction false} FirstMissingNamed(fields: seq<Field>, expected: seq<string>)
    ensures match FirstMissing(fields, expected)
            case Some(key) => MissesFirst(fields, expected, key)
            case None => HasAll(fields, expected)
  {
    if expected != [] {
      HasIffGet(fields, expected[0]);
      var rest := expected[1..];
      FirstMissingNamed(fields, rest);
      if Has(fields, expected[0]) && FirstMissing(fields, expected).Some? {
        var key := FirstMissing(fields, expected).value;
        var i :| 0 <= i < |rest| && rest[i] == key && !Has(fields, key) && forall j :: 0 <= j < i ==> Has(fields, rest[j]);
        forall j | 0 <= j < i + 1 ensures Has(fields, expected[j]) {
          if j > 0 { assert expected[j] == rest[j - 1]; }
        }
        assert expected[i + 1] == key;
      }
      if FirstMissing(fields, expected).None? {
        forall i | 0 <= i < |expected| ensures Has(fields, expected[i]) {
          if i > 0 { assert expected[i] == rest[i - 1]; }
        }
      }
    }
  }

  /** The first name not expected is found before all others like it. */
  lemma {:induction false} FirstUnexpectedAt(names: seq<string>, expected: seq<string>) returns (i: nat)
    requires FirstUnexpected(names, expected).Some?
    ensures i < |names| && names[i] == FirstUnexpected(names, expected).value && names[i] !in expected
    ensures forall j :: 0 <= j < i ==> names[j] in expected
  {
    i := 0;
    if names[0] in expected {
      var k := FirstUnexpectedAt(names[1..], expected);
      i := k + 1;
    }
  }

  lemma NamesHas(fields: seq<Field>, key: string)
    ensures Has(fields, key) <==> key in SortBy(NameKey, Names(fields))
  {
    SortByCorrect(NameKey, Names(fields));
    SameElements(SortBy(NameKey, Names(fields)), Names(fields));
    if f :| f in fields && f.key == key {
      var i :| 0 <= i < |fields| && fields[i] == f;
      assert Names(fields)[i] == key;
    }
    if key in Names(fields) {
      var i :| 0 <= i < |fields| && Names(fields)[i] == key;
      assert fields[i] in fields;
    }
  }

  lemma OneName(a: string, b: string)
    requires KeyLe([a], [b])
    ensures StringLe(a, b)
  {
    if a == b { StringLeReflexive(a); }
  }

  lemma FirstUnknownNamed(fields: seq<Field>, expected: seq<string>)
    ensures match FirstUnexpected(SortBy(NameKey, Names(fields)), expected)
            case Some(key) => FirstUnknown(fields, expected, key)
            case None => NoUnknown(fields, expected)
  {
    NoUnknownNames(fields, expected);
    var names := SortBy(NameKey, Names(fields));
    if FirstUnexpected(names, expected).Some? {
      var i := FirstUnexpectedAt(names, expected);
      NamesHas(fields, names[i]);
      SortByCorrect(NameKey, Names(fields));
      forall f | f in fields && f.key !in expected ensures StringLe(names[i], f.key) {
        assert Has(fields, f.key);
        NamesHas(fields, f.key);
        var j :| 0 <= j < |names| && names[j] == f.key;
        assert j >= i;
        if j == i { StringLeReflexive(names[i]); } else { OneName(names[i], names[j]); }
      }
    }
  }

  /** `_check_keys`: the missing names come before the unknown ones, and these in their own order. */
  lemma KeysExact(fields: seq<Field>, expected: seq<string>)
    ensures match KeyProblem(fields, expected)
            case Some(problem) => KeysWrong(fields, expected, problem)
            case None => KeysRight(fields, expected)
  {
    FirstMissingNamed(fields, expected);
    FirstUnknownNamed(fields, expected);
  }

  ghost predicate IsText(fields: seq<Field>, key: string) {
    Get(fields, key).Some? && Get(fields, key).value.Str?
  }

  /** The first of the names whose value is no string. */
  ghost predicate FirstNotText(fields: seq<Field>, keys: seq<string>, key: string) {
    exists i :: 0 <= i < |keys| && keys[i] == key && !IsText(fields, key) && forall j :: 0 <= j < i ==> IsText(fields, keys[j])
  }

  ghost predicate AllText(fields: seq<Field>, keys: seq<string>) {
    forall i :: 0 <= i < |keys| ==> IsText(fields, keys[i])
  }

  lemma {:induction false} TextsExact(fields: seq<Field>, keys: seq<string>)
    ensures match FirstNonString(fields, keys)
            case Some(NotAString(key)) => FirstNotText(fields, keys, key)
            case Some(_) => false
            case None => AllText(fields, keys)
  {
    if keys != [] {
      var rest := keys[1..];
      TextsExact(fields, rest);
      if IsText(fields, keys[0]) {
        if FirstNonString(fields, keys).Some? {
          var key := FirstNonString(fields, keys).value.key;
          var i :| 0 <= i < |rest| && rest[i] == key && !IsText(fields, key) && forall j :: 0 <= j < i ==> IsText(fields, rest[j]);
          forall j | 0 <= j < i + 1 ensures IsText(fields, keys[j]) {
            if j > 0 { assert keys[j] == rest[j - 1]; }
          }
          assert keys[i + 1] == key;
        } else {
          forall i | 0 <= i < |keys| ensures IsText(fields, keys[i]) {
            if i > 0 { assert keys[i] == rest[i - 1]; }
          }
        }
      } else {
        assert keys[0] == keys[0];
      }
    }
  }

  /** What is wrong with the values of a record whose own names are right: its provenance is no object, or has wrong
      names; else a string of the record or then of its provenance is none; else the timestamp is not canonical. */
  ghost predicate ValuesWrong(fields: seq<Field>, texts: seq<string>, problem: RecordError) {
    var nested := Get(fields, "provenance");
    var names := ["provider", "collection_method", "observed_at", "source_run"];
    if !(nested.Some? && nested.value.Object?) then problem == ProvenanceNotObject
    else
      var inner := nested.value.fields;
      if !KeysRight(inner, names) then KeysWrong(inner, names, problem)
      else if !AllText(fields, texts) then problem.NotAString? && FirstNotText(fields, texts, problem.key)
      else if !AllText(inner, names) then problem.NotAString? && FirstNotText(inner, names, problem.key)
      else
        && problem.BadTimestamp? && TextAt(inner, "observed_at", problem.text)
        && forall t :: IsoFormat(t) != problem.text
  }

  lemma KeysWrongNotRight(fields: seq<Field>, expected: seq<string>, problem: RecordError)
    requires KeysWrong(fields, expected, problem)
    ensures !KeysRight(fields, expected)
  {
    match problem
    case MissingKey(key) =>
    case UnknownKey(key) =>
      var f :| f in fields && f.key == key;
      assert f.key !in expected;
  }

  lemma TimestampRefused(text: string)
    requires ParseObservedAt(text).None?
    ensures forall t :: IsoFormat(t) != text
  {
    forall t ensures IsoFormat(t) != text { ObservedAtExact(text, t); }
  }

  lemma NestedWrong(fields: seq<Field>, texts: seq<string>, identity: bool, inner: seq<Field>)
    requires Get(fields, "provenance") == Some(Object(inner)) && KeyProblem(fields, texts + ["provenance"]).None?
    requires FromFields(fields, texts, identity).Failure?
    ensures ValuesWrong(fields, texts, FromFields(fields, texts, identity).error)
  {
    var names := ["provider", "collection_method", "observed_at", "source_run"];
    assert names == PROVENANCE_KEYS;
    KeysExact(inner, names);
    TextsExact(fields, texts);
    TextsExact(inner, names);
    if KeyProblem(inner, names).Some? {
      KeysWrongNotRight(inner, names, KeyProblem(inner, names).value);
    } else if AllText(fields, texts) && AllText(inner, names) {
      assert names[2] == "observed_at" && IsText(inner, names[2]);
      TimestampRefused(TextOf(inner, "observed_at"));
    }
  }

  /** The expected names of a record, by its type; `provenance` is the last of either. */
  function TextNames(identity: bool): seq<string> {
    if identity then ["type", "subject", "property_name", "value"] else ["type", "subject", "related_subject", "category"]
  }

  ghost predicate FieldsWrong(fields: seq<Field>, identity: bool, problem: RecordError) {
    var names := TextNames(identity) + ["provenance"];
    if !KeysRight(fields, names) then KeysWrong(fields, names, problem)
    else ValuesWrong(fields, TextNames(identity), problem)
  }

  lemma FieldsWrongExact(fields: seq<Field>, identity: bool)
    requires FromFields(fields, TextNames(identity), identity).Failure?
    ensures FieldsWrong(fields, identity, FromFields(fields, TextNames(identity), identity).error)
  {
    var texts := TextNames(identity);
    KeysExact(fields, texts + ["provenance"]);
    if KeyProblem(fields, texts + ["provenance"]).Some? {
      KeysWrongNotRight(fields, texts + ["provenance"], KeyProblem(fields, texts + ["provenance"]).value);
    } else {
      var nested := Get(fields, "provenance");
      if nested.Some? && nested.value.Object? { NestedWrong(fields, texts, identity, nested.value.fields); }
    }
  }

  /** Why a record is refused, the first reason in the order of the checks. */
  ghost predicate RecordWrong(record: Json, problem: RecordError) {
    if !record.Object? then problem == RecordNotObject
    else
      var kind := Get(record.fields, "type");
      if kind == None then problem == MissingKey("type")
      else if kind == Some(Str("identity")) then FieldsWrong(record.fields, true, problem)
      else if kind == Some(Str("relationship")) then FieldsWrong(record.fields, false, problem)
      else problem == UnknownType
  }

  lemma RecordRefused(record: Json)
    requires FromRecord(record).Failure?
    ensures RecordWrong(record, FromRecord(record).error)
  {
    if record.Object? && Get(record.fields, "type").Some? {
      var kind := Get(record.fields, "type").value;
      assert Str("identity").text[0] != Str("relationship").text[0];
      if kind == Str("identity") {
        FieldsWrongExact(record.fields, true);
      } else if kind == Str("relationship") {
        FieldsWrongExact(record.fields, false);
      }
    }
  }

  /** The first bad record, by its position, and why it is refused. */
  ghost predicate FirstBad(records: seq<Json>, start: nat, error: FormatError) {
    && error.BadRecord? && start <= error.index < start + |records|
    && RecordWrong(records[error.index - start], error.problem)
    && forall j :: 0 <= j < error.index - start ==> Accepted(records[j])
  }

  predicate Accepted(record: Json) { FromRecord(record).Success? }

  lemma {:induction false} RecordsRefused(records: seq<Json>, start: nat)
    requires FromRecords(records, start).Failure?
    ensures FirstBad(records, start, FromRecords(records, start).error)
  {
    if FromRecord(records[0]).Failure? {
      RecordRefused(records[0]);
    } else {
      RecordsRefused(records[1..], start + 1);
      var error := FromRecords(records, start).error;
      assert records[error.index - start] == records[1..][error.index - (start + 1)];
      forall j | 0 <= j < error.index - start ensures Accepted(records[j]) {
        if j > 0 { assert records[j] == records[1..][j - 1]; }
      }
    }
  }

  /** Why a document is refused, the first reason in the order of the checks. */
  ghost predicate DocumentWrong(document: Json, error: FormatError) {
    if !NoDuplicates(document) then error == DuplicateKey
    else if !document.Object? then error == NotAnObject
    else
      var fields := document.fields;
      var names := ["format", "format_version", "observations"];
      var format, version := Get(fields, "format"), Get(fields, "format_version");
      var records := Get(fields, "observations");
      if format == None then error == MissingTopLevelKey("format")
      else if format != Some(Str("networkmapper.retained-observations")) then error == UnknownFormat
      else if version == None then error == MissingTopLevelKey("format_version")
      else if version != Some(Integer(1)) then error == UnsupportedVersion
      else if !NoUnknown(fields, names) then error.UnknownTopLevelKey? && FirstUnknown(fields, names, error.key)
      else if !(records.Some? && records.value.Array?) then error == ObservationsNotArray
      else FirstBad(records.value.items, 0, error)
  }

  lemma UnknownMeansSome(fields: seq<Field>, expected: seq<string>, key: string)
    requires FirstUnknown(fields, expected, key)
    ensures !NoUnknown(fields, expected)
  {
    var f :| f in fields && f.key == key;
    assert f.key !in expected;
  }

  /** A document is read, or refused for the first of these reasons. */
  lemma DocumentRefused(document: Json)
    ensures match Parse(document)
            case Failure(error) => DocumentWrong(document, error)
            case Success(os) => DocumentWritten(document, os)
  {
    if Parse(document).Success? {
      StrictParsingExact(document, Parse(document).value);
      DocumentLiteral(document, Parse(document).value);
    } else if document.Object? {
      var fields := document.fields;
      var names := ["format", "format_version", "observations"];
      assert names == TOP_LEVEL_KEYS;
      FirstUnknownNamed(fields, names);
      if key :| FirstUnexpected(SortBy(NameKey, Names(fields)), names) == Some(key) { UnknownMeansSome(fields, names, key); }
      var records := Get(fields, "observations");
      if records.Some? && records.value.Array? && FromRecords(records.value.items, 0).Failure? {
        RecordsRefused(records.value.items, 0);
      }
    }
  }
}
