/** The replay artifact: a strict parser and a canonical writer, at the level of JSON trees. */
module ReplayFormat {
  import opened Wrappers
  import opened Ordering
  import opened Timestamps
  import opened Observations
  import opened Json

  const FORMAT_IDENTIFIER := "networkmapper.retained-observations"
  const FORMAT_VERSION := 1

  const TOP_LEVEL_KEYS := ["format", "format_version", "observations"]
  /** The keys of a record whose values are strings; each record also has a `provenance` object. */
  const IDENTITY_TEXTS := ["type", "subject", "property_name", "value"]
  const RELATIONSHIP_TEXTS := ["type", "subject", "related_subject", "category"]
  const PROVENANCE_KEYS := ["provider", "collection_method", "observed_at", "source_run"]

  datatype RecordError =
    | RecordNotObject
    | MissingKey(key: string)
    | UnknownKey(key: string)
    | UnknownType
    | ProvenanceNotObject
    | NotAString(key: string)
    | BadTimestamp(text: string)

  datatype FormatError =
    | DuplicateKey
    | NotAnObject
    | MissingTopLevelKey(key: string)
    | UnknownFormat
    | UnsupportedVersion
    | UnknownTopLevelKey(key: string)
    | ObservationsNotArray
    | BadRecord(index: nat, problem: RecordError)

  // ---- Writing ----

  function ProvenanceFields(p: Provenance): seq<Field> {
    [Field("provider", Str(p.provider)),
     Field("collection_method", Str(p.collectionMethod)),
     Field("observed_at", Str(IsoFormat(p.observedAt))),
     Field("source_run", Str(p.sourceRun))]
  }

  function RecordTexts(o: Observation): seq<Field> {
    match o
    case Identity(i) =>
      [Field("type", Str("identity")),
       Field("subject", Str(i.subject)),
       Field("property_name", Str(i.propertyName)),
       Field("value", Str(i.value))]
    case Relationship(r) =>
      [Field("type", Str("relationship")),
       Field("subject", Str(r.subject)),
       Field("related_subject", Str(r.relatedSubject)),
       Field("category", Str(r.category))]
  }

  function ProvenanceOf(o: Observation): Provenance {
    match o case Identity(i) => i.provenance case Relationship(r) => r.provenance
  }

  function ProvenanceField(o: Observation): Field {
    Field("provenance", Object(ProvenanceFields(ProvenanceOf(o))))
  }

  function RecordFields(o: Observation): seq<Field> { RecordTexts(o) + [ProvenanceField(o)] }

  /** `_to_record`. */
  function ToRecord(o: Observation): Json { Object(RecordFields(o)) }

  function Records(os: seq<Observation>): seq<Json> {
    Mapped(ToRecord, os)
  }

  function TextOf(fields: seq<Field>, key: string): string {
    match Get(fields, key)
    case Some(Str(text)) => text
    case _ => ""
  }

  function FieldsOf(j: Json): seq<Field> {
    if j.Object? then j.fields else []
  }

  /** `_record_sort_key`: eight strings, the third and fourth depending on the record's type. */
  function RecordKey(record: Json): Key {
    var fields := FieldsOf(record);
    var provenance := FieldsOf(match Get(fields, "provenance") case Some(p) => p case None => Null);
    var identity := TextOf(fields, "type") == "identity";
    [TextOf(fields, "type"), TextOf(fields, "subject"),
     if identity then TextOf(fields, "property_name") else TextOf(fields, "related_subject"),
     if identity then TextOf(fields, "value") else TextOf(fields, "category"),
     TextOf(provenance, "provider"), TextOf(provenance, "collection_method"),
     TextOf(provenance, "source_run"), TextOf(provenance, "observed_at")]
  }

  function DocumentFields(records: seq<Json>): seq<Field> {
    [Field("format", Str(FORMAT_IDENTIFIER)),
     Field("format_version", Integer(FORMAT_VERSION)),
     Field("observations", Array(records))]
  }

  /** The artifact whose records are those of `os`, in that order. */
  function Document(os: seq<Observation>): Json { SortKeys(Object(DocumentFields(Records(os)))) }

  /** `serialize_observations`: sort the records, then print with sorted keys. */
  function Serialize(os: seq<Observation>): Json {
    SortKeys(Object(DocumentFields(SortBy(RecordKey, Records(os)))))
  }

  // ---- Reading ----

  function Names(fields: seq<Field>): seq<string> {
    Mapped((f: Field) => f.key, fields)
  }

  function NameKey(name: string): Key { [name] }

  /** The first name that is not expected. */
  function FirstUnexpected(names: seq<string>, expected: seq<string>): Option<string> {
    if names == [] then None
    else if names[0] !in expected then Some(names[0])
    else FirstUnexpected(names[1..], expected)
  }

  function FirstMissing(fields: seq<Field>, expected: seq<string>): Option<string> {
    if expected == [] then None
    else if Get(fields, expected[0]).None? then Some(expected[0])
    else FirstMissing(fields, expected[1..])
  }

  /** `_check_keys`: nothing missing, then nothing unknown, the unknown ones tried in sorted order. */
  function KeyProblem(fields: seq<Field>, expected: seq<string>): Option<RecordError> {
    match FirstMissing(fields, expected)
    case Some(key) => Some(MissingKey(key))
    case None =>
      match FirstUnexpected(SortBy(NameKey, Names(fields)), expected)
      case Some(key) => Some(UnknownKey(key))
      case None => None
  }

  function FirstNonString(fields: seq<Field>, keys: seq<string>): Option<RecordError> {
    if keys == [] then None
    else
      match Get(fields, keys[0])
      case Some(Str(_)) => FirstNonString(fields, keys[1..])
      case _ => Some(NotAString(keys[0]))
  }

  /** `_from_record`, on a tree already known to repeat no key. */
  function FromRecord(record: Json): Result<Observation, RecordError> {
    if !record.Object? then Failure(RecordNotObject)
    else if Get(record.fields, "type").None? then Failure(MissingKey("type"))
    else
      var kind := Get(record.fields, "type").value;
      if kind == Str("identity") then FromFields(record.fields, IDENTITY_TEXTS, true)
      else if kind == Str("relationship") then FromFields(record.fields, RELATIONSHIP_TEXTS, false)
      else Failure(UnknownType)
  }

  function FromFields(fields: seq<Field>, texts: seq<string>, identity: bool): Result<Observation, RecordError> {
    match KeyProblem(fields, texts + ["provenance"])
    case Some(problem) => Failure(problem)
    case None =>
      match Get(fields, "provenance")
      case Some(Object(provenance)) =>
        (match KeyProblem(provenance, PROVENANCE_KEYS)
         case Some(problem) => Failure(problem)
         case None =>
           match FirstNonString(fields, texts)
           case Some(problem) => Failure(problem)
           case None =>
             match FirstNonString(provenance, PROVENANCE_KEYS)
             case Some(problem) => Failure(problem)
             case None => Build(fields, provenance, identity))
      case _ => Failure(ProvenanceNotObject)
  }

  function Build(fields: seq<Field>, provenance: seq<Field>, identity: bool): Result<Observation, RecordError> {
    var text := TextOf(provenance, "observed_at");
    match ParseObservedAt(text)
    case None => Failure(BadTimestamp(text))
    case Some(observedAt) =>
      var p := Provenance(TextOf(provenance, "provider"), TextOf(provenance, "collection_method"),
                          observedAt, TextOf(provenance, "source_run"));
      Success(
        if identity then
          Identity(IdentityObservation(
            TextOf(fields, "subject"), TextOf(fields, "property_name"), TextOf(fields, "value"), p))
        else
          Relationship(RelationshipObservation(
            TextOf(fields, "subject"), TextOf(fields, "related_subject"), TextOf(fields, "category"), p)))
  }

  /** The records in file order; the first bad one is the error, and no partial list survives it. */
  function FromRecords(records: seq<Json>, start: nat): Result<seq<Observation>, FormatError> {
    if records == [] then Success([])
    else
      match FromRecord(records[0])
      case Failure(problem) => Failure(BadRecord(start, problem))
      case Success(o) =>
        var rest :- FromRecords(records[1..], start + 1);
        Success([o] + rest)
  }

  /** `parse_observations`, from the tree `json.loads` builds. */
  function Parse(document: Json): Result<seq<Observation>, FormatError> {
    if !NoDuplicates(document) then Failure(DuplicateKey)
    else if !document.Object? then Failure(NotAnObject)
    else
      var fields := document.fields;
      match Get(fields, "format")
      case None => Failure(MissingTopLevelKey("format"))
      case Some(format) =>
        if format != Str(FORMAT_IDENTIFIER) then Failure(UnknownFormat)
        else
          match Get(fields, "format_version")
          case None => Failure(MissingTopLevelKey("format_version"))
          case Some(version) =>
            if version != Integer(FORMAT_VERSION) then Failure(UnsupportedVersion)
            else
              match FirstUnexpected(SortBy(NameKey, Names(fields)), TOP_LEVEL_KEYS)
              case Some(key) => Failure(UnknownTopLevelKey(key))
              case None =>
                match Get(fields, "observations")
                case Some(Array(records)) => FromRecords(records, 0)
                case _ => Failure(ObservationsNotArray)
  }

  // ---- Key checks ----

  lemma {:induction false} FirstUnexpectedExact(names: seq<string>, expected: seq<string>)
    ensures FirstUnexpected(names, expected).None? <==> forall name :: name in names ==> name in expected
    ensures FirstUnexpected(names, expected).Some? ==>
      FirstUnexpected(names, expected).value in names && FirstUnexpected(names, expected).value !in expected
  {
    if names != [] {
      FirstUnexpectedExact(names[1..], expected);
      assert names == [names[0]] + names[1..];
    }
  }

  lemma NoUnknownNames(fields: seq<Field>, expected: seq<string>)
    ensures FirstUnexpected(SortBy(NameKey, Names(fields)), expected).None?
      <==> forall f :: f in fields ==> f.key in expected
  {
    var names := Names(fields);
    SortByCorrect(NameKey, names);
    SameElements(SortBy(NameKey, names), names);
    FirstUnexpectedExact(SortBy(NameKey, names), expected);
    if forall name :: name in names ==> name in expected {
      forall f | f in fields ensures f.key in expected {
        var i :| 0 <= i < |fields| && fields[i] == f;
        assert names[i] in names;
      }
    }
    if forall f :: f in fields ==> f.key in expected {
      forall name | name in names ensures name in expected {
        var i :| 0 <= i < |names| && names[i] == name;
        assert fields[i] in fields;
      }
    }
  }

  lemma {:induction false} FirstMissingExact(fields: seq<Field>, expected: seq<string>)
    ensures FirstMissing(fields, expected).None? <==> forall key :: key in expected ==> Get(fields, key).Some?
  {
    if expected != [] {
      FirstMissingExact(fields, expected[1..]);
      assert expected == [expected[0]] + expected[1..];
      assert expected[0] in expected;
      assert forall key :: key in expected[1..] ==> key in expected;
    }
  }

  lemma {:induction false} FirstNonStringExact(fields: seq<Field>, keys: seq<string>)
    ensures FirstNonString(fields, keys).None?
      <==> forall key :: key in keys ==> Get(fields, key).Some? && Get(fields, key).value.Str?
  {
    if keys != [] {
      FirstNonStringExact(fields, keys[1..]);
      assert keys == [keys[0]] + keys[1..];
      assert keys[0] in keys;
      assert forall key :: key in keys[1..] ==> key in keys;
    }
  }

  /** `_check_keys` passes exactly when the names are the expected ones. */
  lemma KeyProblemExact(fields: seq<Field>, expected: seq<string>)
    ensures KeyProblem(fields, expected).None? <==>
      && (forall key :: key in expected ==> Get(fields, key).Some?)
      && (forall f :: f in fields ==> f.key in expected)
  {
    FirstMissingExact(fields, expected);
    NoUnknownNames(fields, expected);
  }

  // ---- Records: what is accepted, exactly ----

  ghost predicate AllCarried(fields: seq<Field>, gs: seq<Field>) {
    forall i :: 0 <= i < |gs| ==> CarriesValue(fields, gs[i])
  }

  lemma ContentByName(fields: seq<Field>, gs: seq<Field>, names: seq<string>)
    requires |names| == |gs| && forall i :: 0 <= i < |gs| ==> gs[i].key == names[i]
    ensures SameContent(fields, gs) <==>
      && DistinctNames(fields)
      && (forall f :: f in fields ==> f.key in names)
      && AllCarried(fields, gs)
  {
    forall f: Field ensures f.key in names <==> Has(gs, f.key) {
      if f.key in names {
        var i :| 0 <= i < |names| && names[i] == f.key;
        assert gs[i] in gs;
      }
    }
  }

  lemma CarriesText(fields: seq<Field>, g: Field)
    requires g.value.Str?
    ensures CarriesValue(fields, g) <==> Get(fields, g.key) == Some(g.value)
  {
  }

  ghost predicate TextsAre(fields: seq<Field>, gs: seq<Field>) {
    forall i :: 0 <= i < |gs| ==> gs[i].value.Str? && TextOf(fields, gs[i].key) == gs[i].value.text
  }

  lemma FourTexts(fields: seq<Field>, a: Field, b: Field, c: Field, d: Field)
    requires a.value.Str? && b.value.Str? && c.value.Str? && d.value.Str?
    ensures TextsAre(fields, [a, b, c, d]) <==>
      && TextOf(fields, a.key) == a.value.text
      && TextOf(fields, b.key) == b.value.text
      && TextOf(fields, c.key) == c.value.text
      && TextOf(fields, d.key) == d.value.text
  {
    var gs := [a, b, c, d];
    assert gs[0] == a && gs[1] == b && gs[2] == c && gs[3] == d;
  }

  lemma CarriesTexts(fields: seq<Field>, names: seq<string>, texts: seq<Field>)
    requires Aligned(names, texts)
    ensures AllCarried(fields, texts) <==> FirstNonString(fields, names).None? && TextsAre(fields, texts)
  {
    FirstNonStringExact(fields, names);
    forall i | 0 <= i < |texts|
      ensures CarriesValue(fields, texts[i]) <==> Get(fields, names[i]) == Some(texts[i].value)
    {
      CarriesText(fields, texts[i]);
    }
    assert forall i :: 0 <= i < |texts| ==> names[i] in names;
  }

  /** Key checks and string checks together say that an object of strings prints like `texts`. */
  lemma TextsMatch(fields: seq<Field>, names: seq<string>, texts: seq<Field>)
    requires Aligned(names, texts)
    ensures SameContent(fields, texts) <==>
      && DistinctNames(fields)
      && KeyProblem(fields, names).None?
      && FirstNonString(fields, names).None?
      && TextsAre(fields, texts)
  {
    KeyProblemExact(fields, names);
    ContentByName(fields, texts, names);
    CarriesTexts(fields, names, texts);
    if AllCarried(fields, texts) { AllCarriedMeansPresent(fields, names, texts); }
  }

  lemma AllCarriedMeansPresent(fields: seq<Field>, names: seq<string>, gs: seq<Field>)
    requires |names| == |gs| && forall i :: 0 <= i < |gs| ==> gs[i].key == names[i]
    requires AllCarried(fields, gs)
    ensures forall key :: key in names ==> Get(fields, key).Some?
  {
    forall key | key in names ensures Get(fields, key).Some? {
      var i :| 0 <= i < |names| && names[i] == key;
      assert CarriesValue(fields, gs[i]);
    }
  }

  /** The same for a record: strings, then one nested object under the last key. */
  lemma RecordMatches(fields: seq<Field>, names: seq<string>, texts: seq<Field>, last: Field, inner: seq<Field>)
    requires Aligned(names, texts)
    requires last.value == Object(inner) && DistinctNames(inner)
    ensures SameContent(fields, texts + [last]) <==>
      && DistinctNames(fields)
      && KeyProblem(fields, names + [last.key]).None?
      && FirstNonString(fields, names).None?
      && TextsAre(fields, texts)
      && NestedLike(Get(fields, last.key), inner)
  {
    var keys, gs := names + [last.key], texts + [last];
    KeyProblemExact(fields, keys);
    ContentByName(fields, gs, keys);
    CarriesTexts(fields, names, texts);
    NestedCarried(fields, last, inner);
    AllCarriedSplit(fields, texts, last);
    if AllCarried(fields, gs) { AllCarriedMeansPresent(fields, keys, gs); }
  }

  lemma AllCarriedSplit(fields: seq<Field>, texts: seq<Field>, last: Field)
    ensures AllCarried(fields, texts + [last]) <==> AllCarried(fields, texts) && CarriesValue(fields, last)
  {
    var gs := texts + [last];
    assert gs[|texts|] == last && forall i :: 0 <= i < |texts| ==> gs[i] == texts[i];
  }

  ghost predicate NestedLike(value: Option<Json>, inner: seq<Field>) {
    value.Some? && value.value.Object? && SameContent(value.value.fields, inner)
  }

  lemma NestedCarried(fields: seq<Field>, g: Field, inner: seq<Field>)
    requires g.value == Object(inner) && DistinctNames(inner)
    ensures CarriesValue(fields, g) <==> NestedLike(Get(fields, g.key), inner)
  {
    if Get(fields, g.key).Some? && Get(fields, g.key).value.Object? {
      ObjectsPrintAlike(Get(fields, g.key).value.fields, inner);
    }
  }

  /** The provenance object is accepted, as `p`, exactly when it prints like the writer's. */
  lemma ProvenanceContent(fields: seq<Field>, p: Provenance)
    ensures SameContent(fields, ProvenanceFields(p)) <==>
      && DistinctNames(fields)
      && KeyProblem(fields, PROVENANCE_KEYS).None?
      && FirstNonString(fields, PROVENANCE_KEYS).None?
      && TextOf(fields, "provider") == p.provider
      && TextOf(fields, "collection_method") == p.collectionMethod
      && TextOf(fields, "source_run") == p.sourceRun
      && ParseObservedAt(TextOf(fields, "observed_at")) == Some(p.observedAt)
  {
    ObservedAtExact(TextOf(fields, "observed_at"), p.observedAt);
    ProvenanceAligned(p);
    TextsMatch(fields, PROVENANCE_KEYS, ProvenanceFields(p));
    FourTexts(fields, Field("provider", Str(p.provider)), Field("collection_method", Str(p.collectionMethod)),
              Field("observed_at", Str(IsoFormat(p.observedAt))), Field("source_run", Str(p.sourceRun)));
  }

  lemma ProvenanceAligned(p: Provenance)
    ensures Aligned(PROVENANCE_KEYS, ProvenanceFields(p))
  {
  }

  /** The names of one written object all have different lengths. */
  lemma LengthsTellApart(fields: seq<Field>, lengths: seq<nat>)
    requires |fields| == |lengths| && forall i :: 0 <= i < |fields| ==> |fields[i].key| == lengths[i]
    requires forall i, j :: 0 <= i < j < |lengths| ==> lengths[i] != lengths[j]
    ensures DistinctNames(fields)
  {
  }

  lemma ProvenanceNamesDistinct(p: Provenance)
    ensures DistinctNames(ProvenanceFields(p))
  {
    LengthsTellApart(ProvenanceFields(p), [8, 17, 11, 10]);
  }

  lemma WriterNamesDistinct(o: Observation)
    ensures DistinctNames(RecordFields(o))
    ensures DistinctNames(ProvenanceFields(ProvenanceOf(o)))
  {
    ProvenanceNamesDistinct(ProvenanceOf(o));
    var fields := RecordFields(o);
    assert fields[4] == ProvenanceField(o);
    match o
    case Identity(i) => LengthsTellApart(fields, [4, 7, 13, 5, 10]);
    case Relationship(r) => LengthsTellApart(fields, [4, 7, 15, 8, 10]);
  }

  function TypeName(o: Observation): string {
    if o.Identity? then "identity" else "relationship"
  }

  function TextKeys(o: Observation): seq<string> {
    if o.Identity? then IDENTITY_TEXTS else RELATIONSHIP_TEXTS
  }

  /** The three strings of a record besides its type, in key order. */
  function ClaimTexts(o: Observation): (string, string, string) {
    match o
    case Identity(i) => (i.subject, i.propertyName, i.value)
    case Relationship(r) => (r.subject, r.relatedSubject, r.category)
  }

  lemma RecordContent(fields: seq<Field>, o: Observation)
    ensures SameContent(fields, RecordFields(o)) <==>
      && DistinctNames(fields)
      && KeyProblem(fields, TextKeys(o) + ["provenance"]).None?
      && FirstNonString(fields, TextKeys(o)).None?
      && TextsAre(fields, RecordTexts(o))
      && NestedLike(Get(fields, "provenance"), ProvenanceFields(ProvenanceOf(o)))
  {
    WriterAligned(o);
    ProvenanceNamesDistinct(ProvenanceOf(o));
    RecordMatches(fields, TextKeys(o), RecordTexts(o), ProvenanceField(o), ProvenanceFields(ProvenanceOf(o)));
  }

  ghost predicate Aligned(names: seq<string>, texts: seq<Field>) {
    |names| == |texts| && forall i :: 0 <= i < |texts| ==> texts[i].key == names[i] && texts[i].value.Str?
  }

  lemma WriterAligned(o: Observation)
    ensures Aligned(TextKeys(o), RecordTexts(o))
  {
  }

  lemma RecordTextsUnrolled(fields: seq<Field>, o: Observation)
    ensures var keys := TextKeys(o);
      TextsAre(fields, RecordTexts(o)) <==>
      && TextOf(fields, "type") == TypeName(o)
      && (TextOf(fields, keys[1]), TextOf(fields, keys[2]), TextOf(fields, keys[3])) == ClaimTexts(o)
  {
    match o
    case Identity(i) =>
      FourTexts(fields, Field("type", Str("identity")), Field("subject", Str(i.subject)),
                Field("property_name", Str(i.propertyName)), Field("value", Str(i.value)));
    case Relationship(r) =>
      FourTexts(fields, Field("type", Str("relationship")), Field("subject", Str(r.subject)),
                Field("related_subject", Str(r.relatedSubject)), Field("category", Str(r.category)));
  }

  lemma BuildExact(fields: seq<Field>, provenance: seq<Field>, o: Observation)
    ensures var keys := TextKeys(o); var p := ProvenanceOf(o);
      Build(fields, provenance, o.Identity?) == Success(o) <==>
      && (TextOf(fields, keys[1]), TextOf(fields, keys[2]), TextOf(fields, keys[3])) == ClaimTexts(o)
      && TextOf(provenance, "provider") == p.provider
      && TextOf(provenance, "collection_method") == p.collectionMethod
      && TextOf(provenance, "source_run") == p.sourceRun
      && ParseObservedAt(TextOf(provenance, "observed_at")) == Some(p.observedAt)
  {
  }

  lemma BuildKeepsKind(fields: seq<Field>, provenance: seq<Field>, identity: bool)
    ensures Build(fields, provenance, identity).Success? ==> Build(fields, provenance, identity).value.Identity? == identity
  {
  }

  lemma FromFieldsExact(fields: seq<Field>, o: Observation)
    requires NoDuplicates(Object(fields))
    ensures FromFields(fields, TextKeys(o), o.Identity?) == Success(o) && TextOf(fields, "type") == TypeName(o)
      <==> SameContent(fields, RecordFields(o))
  {
    RecordContent(fields, o);
    RecordTextsUnrolled(fields, o);
    var nested := Get(fields, "provenance");
    if nested.Some? && nested.value.Object? {
      HasIffGet(fields, "provenance");
      ProvenanceContent(nested.value.fields, ProvenanceOf(o));
      BuildExact(fields, nested.value.fields, o);
    }
  }

  lemma FromFieldsKeepsKind(fields: seq<Field>, identity: bool)
    ensures var r := FromFields(fields, if identity then IDENTITY_TEXTS else RELATIONSHIP_TEXTS, identity);
      r.Success? ==> r.value.Identity? == identity
  {
    var nested := Get(fields, "provenance");
    if nested.Some? && nested.value.Object? { BuildKeepsKind(fields, nested.value.fields, identity); }
  }

  /** The type decides which of the two shapes is tried. */
  lemma FromRecordDispatch(fields: seq<Field>, o: Observation)
    ensures FromRecord(Object(fields)) == Success(o) <==>
      FromFields(fields, TextKeys(o), o.Identity?) == Success(o) && TextOf(fields, "type") == TypeName(o)
  {
    FromFieldsKeepsKind(fields, true);
    FromFieldsKeepsKind(fields, false);
    assert "identity"[0] != "relationship"[0];
    assert TypeName(o) != "";
    var kind := Get(fields, "type");
    assert TextOf(fields, "type") == TypeName(o) <==> kind == Some(Str(TypeName(o)));
  }

  /** A record is accepted as `o` exactly when it is the writer's record for `o`, up to the order of keys. */
  lemma RecordExact(record: Json, o: Observation)
    requires NoDuplicates(record)
    ensures FromRecord(record) == Success(o) <==> SortKeys(record) == SortKeys(ToRecord(o))
  {
    if record.Object? {
      WriterNamesDistinct(o);
      ObjectsPrintAlike(record.fields, RecordFields(o));
      FromFieldsExact(record.fields, o);
      FromRecordDispatch(record.fields, o);
    }
  }

  // ---- Documents ----

  ghost predicate PrintAlike(records: seq<Json>, os: seq<Observation>) {
    && |records| == |os|
    && forall i :: 0 <= i < |os| ==> SortKeys(records[i]) == SortKeys(ToRecord(os[i]))
  }

  lemma PrintAlikeSplit(records: seq<Json>, os: seq<Observation>)
    requires records != [] && os != []
    ensures PrintAlike(records, os) <==>
      SortKeys(records[0]) == SortKeys(ToRecord(os[0])) && PrintAlike(records[1..], os[1..])
  {
    if SortKeys(records[0]) == SortKeys(ToRecord(os[0])) && PrintAlike(records[1..], os[1..]) {
      forall i | 0 <= i < |os| ensures SortKeys(records[i]) == SortKeys(ToRecord(os[i])) {
        if i > 0 { assert records[i] == records[1..][i - 1] && os[i] == os[1..][i - 1]; }
      }
    }
    if PrintAlike(records, os) {
      var rs, ps := records[1..], os[1..];
      forall i | 0 <= i < |ps| ensures SortKeys(rs[i]) == SortKeys(ToRecord(ps[i])) {
        assert rs[i] == records[i + 1] && ps[i] == os[i + 1];
      }
    }
  }

  lemma {:induction false} RecordsExact(records: seq<Json>, start: nat, os: seq<Observation>)
    requires forall r :: r in records ==> NoDuplicates(r)
    ensures FromRecords(records, start) == Success(os) <==> PrintAlike(records, os)
  {
    if records != [] && os != [] {
      assert records[0] in records;
      RecordExact(records[0], os[0]);
      RecordsExact(records[1..], start + 1, os[1..]);
      PrintAlikeSplit(records, os);
      assert os == [os[0]] + os[1..];
    }
  }

  lemma TopLevelContent(fields: seq<Field>, os: seq<Observation>)
    ensures SameContent(fields, DocumentFields(Records(os))) <==>
      && DistinctNames(fields)
      && Get(fields, "format") == Some(Str(FORMAT_IDENTIFIER))
      && Get(fields, "format_version") == Some(Integer(FORMAT_VERSION))
      && FirstUnexpected(SortBy(NameKey, Names(fields)), TOP_LEVEL_KEYS).None?
      && ArrayLike(Get(fields, "observations"), os)
  {
    var gs := DocumentFields(Records(os));
    NoUnknownNames(fields, TOP_LEVEL_KEYS);
    ContentByName(fields, gs, TOP_LEVEL_KEYS);
    assert AllCarried(fields, gs) <==>
      CarriesValue(fields, gs[0]) && CarriesValue(fields, gs[1]) && CarriesValue(fields, gs[2]);
    ArrayCarried(fields, os);
  }

  ghost predicate ArrayLike(value: Option<Json>, os: seq<Observation>) {
    value.Some? && value.value.Array? && PrintAlike(value.value.items, os)
  }

  lemma ArrayCarried(fields: seq<Field>, os: seq<Observation>)
    ensures CarriesValue(fields, Field("observations", Array(Records(os)))) <==> ArrayLike(Get(fields, "observations"), os)
  {
    var written := SortKeys(Array(Records(os)));
    assert |written.items| == |os| && forall i :: 0 <= i < |os| ==> written.items[i] == SortKeys(ToRecord(os[i]));
    var value := Get(fields, "observations");
    if value.Some? && value.value.Array? {
      var read := SortKeys(value.value);
      assert |read.items| == |value.value.items|;
      if ArrayLike(value, os) { assert read.items == written.items; }
      if read == written {
        forall i | 0 <= i < |os| ensures SortKeys(value.value.items[i]) == SortKeys(ToRecord(os[i])) {
          assert read.items[i] == written.items[i];
        }
      }
    }
  }

  lemma DocumentNamesDistinct(records: seq<Json>)
    ensures DistinctNames(DocumentFields(records))
  {
    assert |"format"| == 6 && |"format_version"| == 14 && |"observations"| == 12;
  }

  lemma ParseWithoutDuplicates(document: Json, os: seq<Observation>)
    requires NoDuplicates(document) && document.Object?
    ensures Parse(document) == Success(os) <==> SameContent(document.fields, DocumentFields(Records(os)))
  {
    var fields := document.fields;
    TopLevelContent(fields, os);
    var records := Get(fields, "observations");
    if records.Some? && records.value.Array? {
      HasIffGet(fields, "observations");
      RecordsExact(records.value.items, 0, os);
    }
  }

  lemma WriterRecordClean(o: Observation)
    ensures NoDuplicates(ToRecord(o))
  {
    WriterNamesDistinct(o);
  }

  lemma DocumentHasNoDuplicates(os: seq<Observation>)
    ensures NoDuplicates(Document(os))
  {
    var records := Records(os);
    forall r | r in records ensures NoDuplicates(r) {
      var i :| 0 <= i < |records| && records[i] == r;
      WriterRecordClean(os[i]);
    }
    assert NoDuplicates(Array(records));
    DocumentNamesDistinct(records);
    NoDuplicatesSorted(Object(DocumentFields(records)));
  }

  /** Strict parsing loses nothing: a tree is accepted, as the list `os`, exactly when it is the writer's
      tree for `os` in the same record order, up to the order of keys inside objects. */
  lemma StrictParsingExact(document: Json, os: seq<Observation>)
    ensures Parse(document) == Success(os) <==> SortKeys(document) == Document(os)
  {
    NoDuplicatesSorted(document);
    DocumentHasNoDuplicates(os);
    DocumentNamesDistinct(Records(os));
    if NoDuplicates(document) && document.Object? {
      ParseWithoutDuplicates(document, os);
      ObjectsPrintAlike(document.fields, DocumentFields(Records(os)));
    }
  }

  // ---- The canonical order of records ----

  function RecordKeyOf(o: Observation): Key { RecordKey(ToRecord(o)) }

  lemma OwnRecordTexts(o: Observation)
    ensures var fields := RecordFields(o);
      TextsAre(fields, RecordTexts(o)) && Get(fields, "provenance") == Some(ProvenanceField(o).value)
  {
    var fields := RecordFields(o);
    WriterNamesDistinct(o);
    SameAsItself(fields);
    RecordContent(fields, o);
    assert fields[|RecordTexts(o)|] == ProvenanceField(o);
    GetDistinct(fields, ProvenanceField(o));
  }

  lemma OwnProvenanceTexts(p: Provenance)
    ensures var fields := ProvenanceFields(p);
      && TextOf(fields, "provider") == p.provider && TextOf(fields, "collection_method") == p.collectionMethod
      && TextOf(fields, "source_run") == p.sourceRun && TextOf(fields, "observed_at") == IsoFormat(p.observedAt)
  {
    var fields := ProvenanceFields(p);
    ProvenanceNamesDistinct(p);
    SameAsItself(fields);
    ProvenanceContent(fields, p);
    ObservedAtExact(TextOf(fields, "observed_at"), p.observedAt);
  }

  /** The key names every serialized field, so it is total across both record types. */
  lemma RecordKeyFields(o: Observation)
    ensures RecordKeyOf(o) ==
      [TypeName(o), ClaimTexts(o).0, ClaimTexts(o).1, ClaimTexts(o).2,
       ProvenanceOf(o).provider, ProvenanceOf(o).collectionMethod,
       ProvenanceOf(o).sourceRun, IsoFormat(ProvenanceOf(o).observedAt)]
  {
    OwnRecordTexts(o);
    RecordTextsUnrolled(RecordFields(o), o);
    OwnProvenanceTexts(ProvenanceOf(o));
    assert "identity"[0] != "relationship"[0];
  }

  lemma SameAsItself(fields: seq<Field>)
    requires DistinctNames(fields)
    ensures SameContent(fields, fields)
  {
    forall f | f in fields ensures CarriesValue(fields, f) { GetDistinct(fields, f); }
  }

  /** Observations of either type that tie on all eight positions are equal. */
  lemma RecordKeyTotal(o: Observation, o': Observation)
    requires RecordKeyOf(o) == RecordKeyOf(o')
    ensures o == o'
  {
    RecordKeyFields(o);
    RecordKeyFields(o');
    var x, y := RecordKeyOf(o), RecordKeyOf(o');
    assert x[0] == y[0] && x[1] == y[1] && x[2] == y[2] && x[3] == y[3];
    assert x[4] == y[4] && x[5] == y[5] && x[6] == y[6] && x[7] == y[7];
    assert "identity"[0] != "relationship"[0];
    IsoFormatInjective(ProvenanceOf(o).observedAt, ProvenanceOf(o').observedAt);
  }

  function SerializedOrder(os: seq<Observation>): seq<Observation> { SortBy(RecordKeyOf, os) }

  /** Sorting the records is sorting the observations. */
  lemma SortRecords(os: seq<Observation>)
    ensures SortBy(RecordKey, Records(os)) == Records(SerializedOrder(os))
  {
    SortMapped(RecordKey, ToRecord, RecordKeyOf, os);
  }

  lemma SerializedOrderCanonical(os: seq<Observation>, os': seq<Observation>)
    requires multiset(os) == multiset(os')
    ensures SerializedOrder(os) == SerializedOrder(os')
  {
    SortByCorrect(RecordKeyOf, os);
    SortByCorrect(RecordKeyOf, os');
    var sorted := SerializedOrder(os);
    forall i, j | 0 <= i < |sorted| && 0 <= j < |sorted| && RecordKeyOf(sorted[i]) == RecordKeyOf(sorted[j])
      ensures sorted[i] == sorted[j]
    {
      RecordKeyTotal(sorted[i], sorted[j]);
    }
    SortedArrangementUnique(RecordKeyOf, sorted, SerializedOrder(os'));
  }

  /** Reading back what was written gives every observation, as often as it was retained, sorted by the
      eight-field key. */
  lemma RoundTrip(os: seq<Observation>)
    ensures Parse(Serialize(os)) == Success(SerializedOrder(os))
    ensures multiset(SerializedOrder(os)) == multiset(os) && SortedBy(RecordKeyOf, SerializedOrder(os))
  {
    SortRecords(os);
    SortKeysIdempotent(Object(DocumentFields(Records(SerializedOrder(os)))));
    StrictParsingExact(Serialize(os), SerializedOrder(os));
    SortByCorrect(RecordKeyOf, os);
  }

  /** Two lists have the same artifact exactly when they hold the same observations equally often. */
  lemma CanonicalForm(os: seq<Observation>, os': seq<Observation>)
    ensures Serialize(os) == Serialize(os') <==> multiset(os) == multiset(os')
  {
    RoundTrip(os);
    RoundTrip(os');
    SortRecords(os);
    SortRecords(os');
    if multiset(os) == multiset(os') { SerializedOrderCanonical(os, os'); }
  }

  /** Writing an accepted document again reproduces it, up to the order of keys, exactly when its records
      already stood in key order. */
  lemma ReserializeAccepted(document: Json, os: seq<Observation>)
    requires Parse(document) == Success(os)
    ensures Serialize(os) == SortKeys(document) <==> SortedBy(RecordKeyOf, os)
  {
    StrictParsingExact(document, os);
    SortRecords(os);
    if SortedBy(RecordKeyOf, os) { SortSorted(RecordKeyOf, os); }
    if Serialize(os) == SortKeys(document) {
      RoundTrip(os);
      SortKeysIdempotent(document);
      StrictParsingExact(SortKeys(document), os);
      SortByCorrect(RecordKeyOf, os);
    }
  }

  // ---- The checks that run as loops ----

  ghost predicate FirstRepeat(pairs: seq<Field>, i: nat, key: string)
    requires i < |pairs|
  {
    pairs[i].key == key && DistinctNames(pairs[..i]) && Has(pairs[..i], key)
  }

  /** `_reject_duplicate_keys`: the dictionary of an object, or the first key seen a second time. */
  method RejectDuplicateKeys(pairs: seq<Field>) returns (r: Result<map<string, Json>, string>)
    ensures r.Success? <==> DistinctNames(pairs)
    ensures r.Success? ==> r.value.Keys == set f | f in pairs :: f.key
    ensures r.Success? ==> forall f :: f in pairs ==> r.value[f.key] == f.value
    ensures r.Failure? ==> exists i :: 0 <= i < |pairs| && FirstRepeat(pairs, i, r.error)
  {
    var result: map<string, Json> := map[];
    for i := 0 to |pairs|
      invariant DistinctNames(pairs[..i])
      invariant result.Keys == set f | f in pairs[..i] :: f.key
      invariant forall f :: f in pairs[..i] ==> result[f.key] == f.value
    {
      var key := pairs[i].key;
      assert pairs[..i + 1] == pairs[..i] + [pairs[i]];
      if key in result {
        assert Has(pairs[..i], key);
        var f :| f in pairs[..i] && f.key == key;
        var j :| 0 <= j < i && pairs[j] == f;
        assert FirstRepeat(pairs, i, key);
        return Failure(key);
      }
      result := result[key := pairs[i].value];
    }
    assert pairs[..|pairs|] == pairs;
    return Success(result);
  }

  /** `_check_keys`. */
  method CheckKeys(fields: seq<Field>, expected: seq<string>) returns (problem: Option<RecordError>)
    ensures problem == KeyProblem(fields, expected)
  {
    for i := 0 to |expected|
      invariant FirstMissing(fields, expected) == FirstMissing(fields, expected[i..])
    {
      if Get(fields, expected[i]).None? { return Some(MissingKey(expected[i])); }
    }
    var names := SortBy(NameKey, Names(fields));
    for i := 0 to |names|
      invariant FirstUnexpected(names, expected) == FirstUnexpected(names[i..], expected)
    {
      if names[i] !in expected { return Some(UnknownKey(names[i])); }
    }
    return None;
  }
}
