/** JSON trees. An object is an ordered list of fields, so a repeated key is visible (RFC 8259, section 4). */
module Json {
  import opened Wrappers
  import opened Ordering

  datatype Json =
    | Null
    | Bool(flag: bool)
    | Integer(n: int)
    /** A number that is not an integer literal. */
    | Float(literal: string)
    | Str(text: string)
    | Array(items: seq<Json>)
    | Object(fields: seq<Field>)

  datatype Field = Field(key: string, value: Json)

  function FieldKey(f: Field): Key { [f.key] }

  predicate Has(fields: seq<Field>, key: string) {
    exists f :: f in fields && f.key == key
  }

  /** The value of a key that is present. */
  function Get(fields: seq<Field>, key: string): Option<Json> {
    if fields == [] then None
    else if fields[0].key == key then Some(fields[0].value)
    else Get(fields[1..], key)
  }

  predicate DistinctNames(fields: seq<Field>) {
    forall i, j :: 0 <= i < j < |fields| ==> fields[i].key != fields[j].key
  }

  /** No object anywhere in the tree repeats a key. */
  predicate NoDuplicates(j: Json) {
    match j
    case Array(items) => forall item :: item in items ==> NoDuplicates(item)
    case Object(fields) => DistinctNames(fields) && forall f :: f in fields ==> NoDuplicates(f.value)
    case _ => true
  }

  /** The tree `json.dumps(..., sort_keys=True)` prints. */
  function SortKeys(j: Json): Json {
    match j
    case Array(items) => Array(seq(|items|, i requires 0 <= i < |items| => SortKeys(items[i])))
    case Object(fields) =>
      Object(SortBy(FieldKey,
        seq(|fields|, i requires 0 <= i < |fields| => Field(fields[i].key, SortKeys(fields[i].value)))))
    case _ => j
  }

  function SortedField(f: Field): Field { Field(f.key, SortKeys(f.value)) }

  /** Each field with its value's keys sorted, the fields themselves in place. */
  function SortedValues(fields: seq<Field>): seq<Field> {
    seq(|fields|, i requires 0 <= i < |fields| => SortedField(fields[i]))
  }

  lemma SortKeysObject(fields: seq<Field>)
    ensures SortKeys(Object(fields)) == Object(SortBy(FieldKey, SortedValues(fields)))
  {
    assert SortedValues(fields)
        == seq(|fields|, i requires 0 <= i < |fields| => Field(fields[i].key, SortKeys(fields[i].value)));
  }

  lemma {:induction false} HasIffGet(fields: seq<Field>, key: string)
    ensures Has(fields, key) <==> Get(fields, key).Some?
    ensures Has(fields, key) ==> Field(key, Get(fields, key).value) in fields
  {
    if fields != [] {
      HasIffGet(fields[1..], key);
      if Has(fields, key) && fields[0].key != key {
        var f :| f in fields && f.key == key;
        assert f in fields[1..];
      }
    }
  }

  lemma GetDistinct(fields: seq<Field>, f: Field)
    requires DistinctNames(fields) && f in fields
    ensures Get(fields, f.key) == Some(f.value)
  {
    HasIffGet(fields, f.key);
    var i :| 0 <= i < |fields| && fields[i] == f;
    var j :| 0 <= j < |fields| && fields[j] == Field(f.key, Get(fields, f.key).value);
    assert i == j;
  }

  lemma {:induction false} DistinctCounts(fields: seq<Field>, f: Field)
    requires DistinctNames(fields)
    ensures multiset(fields)[f] == if f in fields then 1 else 0
  {
    if fields != [] {
      DistinctCounts(fields[1..], f);
      assert fields == [fields[0]] + fields[1..];
      assert fields[0] !in fields[1..];
    }
  }

  /** Two objects print alike, whatever the order of their keys. */
  lemma SortedAlike(fs: seq<Field>, gs: seq<Field>)
    requires DistinctNames(gs)
    ensures SortBy(FieldKey, fs) == SortBy(FieldKey, gs) <==>
      DistinctNames(fs) && forall f :: f in fs <==> f in gs
  {
    SortByCorrect(FieldKey, fs);
    SortByCorrect(FieldKey, gs);
    KeysOfDistinct(gs);
    if SortBy(FieldKey, fs) == SortBy(FieldKey, gs) {
      assert multiset(fs) == multiset(gs);
      SameElements(fs, gs);
      forall i, j | 0 <= i < j < |fs| ensures fs[i].key != fs[j].key {
        DistinctSurvivesRearranging(FieldKey, gs, fs, i, j);
      }
    }
    if DistinctNames(fs) && forall f :: f in fs <==> f in gs {
      forall f ensures multiset(fs)[f] == multiset(gs)[f] {
        DistinctCounts(fs, f);
        DistinctCounts(gs, f);
      }
      assert multiset(fs) == multiset(gs);
      SameSortedFields(fs, gs);
    }
  }

  lemma KeysOfDistinct(fs: seq<Field>)
    requires DistinctNames(fs)
    ensures forall i, j :: 0 <= i < j < |fs| ==> FieldKey(fs[i]) != FieldKey(fs[j])
  {
    forall i, j | 0 <= i < j < |fs| ensures FieldKey(fs[i]) != FieldKey(fs[j]) {
      assert FieldKey(fs[i])[0] != FieldKey(fs[j])[0];
    }
  }

  lemma SameSortedFields(fs: seq<Field>, gs: seq<Field>)
    requires DistinctNames(fs) && multiset(fs) == multiset(gs)
    ensures SortBy(FieldKey, fs) == SortBy(FieldKey, gs)
  {
    SortByCorrect(FieldKey, fs);
    SortByCorrect(FieldKey, gs);
    KeysOfDistinct(fs);
    SortByStrict(FieldKey, fs);
    SortedArrangementUnique(FieldKey, SortBy(FieldKey, fs), SortBy(FieldKey, gs));
  }

  /** `fields` has exactly the names of `gs`, once each, with values that print like theirs. */
  ghost predicate SameContent(fields: seq<Field>, gs: seq<Field>) {
    && DistinctNames(fields)
    && (forall f :: f in fields ==> Has(gs, f.key))
    && (forall g :: g in gs ==> CarriesValue(fields, g))
  }

  ghost predicate CarriesValue(fields: seq<Field>, g: Field) {
    && Get(fields, g.key).Some?
    && SortKeys(Get(fields, g.key).value) == SortKeys(g.value)
  }

  lemma SortedValuesMembers(fields: seq<Field>, x: Field)
    ensures x in SortedValues(fields) <==> exists f :: f in fields && SortedField(f) == x
  {
    if x in SortedValues(fields) {
      var i :| 0 <= i < |fields| && SortedValues(fields)[i] == x;
      assert fields[i] in fields;
    }
    if f :| f in fields && SortedField(f) == x {
      var i :| 0 <= i < |fields| && fields[i] == f;
      assert SortedValues(fields)[i] == x;
    }
  }

  lemma SameMembersMeanSameContent(fields: seq<Field>, gs: seq<Field>)
    requires DistinctNames(fields)
    requires forall x :: x in SortedValues(fields) <==> x in SortedValues(gs)
    ensures SameContent(fields, gs)
  {
    forall f | f in fields ensures Has(gs, f.key) {
      SortedValuesMembers(fields, SortedField(f));
      SortedValuesMembers(gs, SortedField(f));
      var g :| g in gs && SortedField(g) == SortedField(f);
      assert g.key == f.key;
    }
    forall g | g in gs ensures CarriesValue(fields, g) {
      SortedValuesMembers(gs, SortedField(g));
      SortedValuesMembers(fields, SortedField(g));
      var f :| f in fields && SortedField(f) == SortedField(g);
      GetDistinct(fields, f);
    }
  }

  lemma SameContentMeansSameMembers(fields: seq<Field>, gs: seq<Field>, x: Field)
    requires SameContent(fields, gs) && DistinctNames(gs)
    ensures x in SortedValues(fields) <==> x in SortedValues(gs)
  {
    SortedValuesMembers(fields, x);
    SortedValuesMembers(gs, x);
    if f :| f in fields && SortedField(f) == x {
      assert Has(gs, f.key);
      var g :| g in gs && g.key == f.key;
      assert CarriesValue(fields, g);
      GetDistinct(fields, f);
      assert SortedField(g) == x;
    }
    if g :| g in gs && SortedField(g) == x {
      assert CarriesValue(fields, g);
      HasIffGet(fields, g.key);
      assert SortedField(Field(g.key, Get(fields, g.key).value)) == x;
    }
  }

  lemma ObjectsPrintAlike(fields: seq<Field>, gs: seq<Field>)
    requires DistinctNames(gs)
    ensures SortKeys(Object(fields)) == SortKeys(Object(gs)) <==> SameContent(fields, gs)
  {
    SortKeysObject(fields);
    SortKeysObject(gs);
    var fs', gs' := SortedValues(fields), SortedValues(gs);
    SortedAlike(fs', gs');
    if SortKeys(Object(fields)) == SortKeys(Object(gs)) {
      DistinctNamesOfSorted(fields);
      SameMembersMeanSameContent(fields, gs);
    }
    if SameContent(fields, gs) {
      forall x ensures x in fs' <==> x in gs' { SameContentMeansSameMembers(fields, gs, x); }
    }
  }

  lemma DistinctNamesOfSorted(fields: seq<Field>)
    ensures DistinctNames(SortedValues(fields)) <==> DistinctNames(fields)
  {
    var vs := SortedValues(fields);
    if DistinctNames(vs) {
      forall i, j | 0 <= i < j < |fields| ensures fields[i].key != fields[j].key {
        assert vs[i].key != vs[j].key;
      }
    }
  }

  // ---- Sorting keys twice is sorting them once ----

  lemma {:induction false} SortKeysIdempotent(j: Json)
    ensures SortKeys(SortKeys(j)) == SortKeys(j)
  {
    match j
    case Array(items) =>
      forall i | 0 <= i < |items| ensures SortKeys(SortKeys(items[i])) == SortKeys(items[i]) {
        SortKeysIdempotent(items[i]);
      }
    case Object(fields) =>
      SortKeysObject(fields);
      var sorted := SortBy(FieldKey, SortedValues(fields));
      SortByCorrect(FieldKey, SortedValues(fields));
      SameElements(sorted, SortedValues(fields));
      forall i | 0 <= i < |sorted| ensures SortedField(sorted[i]) == sorted[i] {
        assert sorted[i] in sorted;
        SortedValuesMembers(fields, sorted[i]);
        var f :| f in fields && SortedField(f) == sorted[i];
        SortKeysIdempotent(f.value);
      }
      assert SortedValues(sorted) == sorted;
      SortKeysObject(sorted);
      SortSorted(FieldKey, sorted);
    case _ =>
  }

  // ---- Repeated keys survive sorting, so they can be looked for before or after ----

  lemma {:induction false} NoDuplicatesSorted(j: Json)
    ensures NoDuplicates(SortKeys(j)) <==> NoDuplicates(j)
  {
    match j
    case Array(items) =>
      var sorted := SortKeys(j).items;
      forall i | 0 <= i < |items| ensures NoDuplicates(sorted[i]) <==> NoDuplicates(items[i]) {
        NoDuplicatesSorted(items[i]);
      }
      if NoDuplicates(j) {
        forall x | x in sorted ensures NoDuplicates(x) {
          var i :| 0 <= i < |sorted| && sorted[i] == x;
          assert items[i] in items;
        }
      }
      if NoDuplicates(SortKeys(j)) {
        forall x | x in items ensures NoDuplicates(x) {
          var i :| 0 <= i < |items| && items[i] == x;
          assert sorted[i] in sorted;
        }
      }
    case Object(fields) =>
      SortKeysObject(fields);
      forall f | f in fields ensures NoDuplicates(SortKeys(f.value)) <==> NoDuplicates(f.value) {
        NoDuplicatesSorted(f.value);
      }
      NoDuplicatesFields(fields);
    case _ =>
  }

  lemma NoDuplicatesFields(fields: seq<Field>)
    requires forall f :: f in fields ==> (NoDuplicates(SortKeys(f.value)) <==> NoDuplicates(f.value))
    ensures NoDuplicates(SortKeys(Object(fields))) <==> NoDuplicates(Object(fields))
  {
    SortKeysObject(fields);
    var values := SortedValues(fields);
    var sorted := SortBy(FieldKey, values);
    SortByCorrect(FieldKey, values);
    SameElements(sorted, values);
    DistinctNamesOfSorted(fields);
    if DistinctNames(values) {
      SortedAlike(sorted, values);
      SortSorted(FieldKey, sorted);
    }
    if DistinctNames(sorted) {
      SortedAlike(values, sorted);
      SortSorted(FieldKey, sorted);
    }
    forall x | x in sorted ensures exists f :: f in fields && SortedField(f) == x { SortedValuesMembers(fields, x); }
    forall f | f in fields ensures SortedField(f) in sorted { SortedValuesMembers(fields, SortedField(f)); }
    if NoDuplicates(Object(fields)) {
      forall x | x in sorted ensures NoDuplicates(x.value) {
        var f :| f in fields && SortedField(f) == x;
        assert NoDuplicates(f.value);
      }
    }
    if NoDuplicates(Object(sorted)) {
      forall f | f in fields ensures NoDuplicates(f.value) {
        assert SortedField(f) in sorted;
      }
    }
  }
}
