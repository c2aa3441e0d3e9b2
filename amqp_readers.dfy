/**
 * The readers the factory builds and the cache that holds them, specified as functions: what
 * `process` of one type notation, and of a whole schema, does to the readers-by-type map and the
 * readers-by-descriptor map. The reader classes themselves are opaque: a reader records its kind,
 * its name and the readers it delegates to.
 */
module AmqpReaders {
  import opened Wrappers
  import opened AmqpSchema

  datatype Reader =
    | PropertyReader(name: string, typ: string)
    | CompositeReader(name: string, fieldReaders: seq<Reader>)
    | ListReader(name: string, element: Option<Reader>)
  {
    /** `type()`: the type a reader reads. A composite or list reader is named after its type. */
    function Type(): string
    {
      if PropertyReader? then typ else name
    }
  }

  /** A map from names to shared pointers to readers; `None` is a stored null pointer. */
  type ReaderMap = map<string, Option<Reader>>

  /** Every reader cached under a type name reads that type. */
  ghost predicate KeysMatch(m: ReaderMap)
  {
    forall k :: k in m && m[k].Some? ==> m[k].value.Type() == k
  }

  /** `m'` keeps every entry of `m` as it was. */
  ghost predicate Extends(m: ReaderMap, m': ReaderMap)
  {
    forall k :: k in m ==> k in m' && m'[k] == m[k]
  }

  /** A restricted field names at least the type it stands for. */
  predicate WellFormedField(f: Field)
  {
    f.fieldType.RestrictedProperty? ==> |f.requiredTypes| > 0
  }

  /** The key under which `processComposite` finds (or caches) the reader of a field. */
  function FieldKey(f: Field): string
    requires WellFormedField(f)
  {
    if f.fieldType.RestrictedProperty? then f.requiredTypes[0] else f.typ
  }

  /**
   * What `processComposite` demands of the cache for a field: the reader it takes for the field must be
   * non-null, and a composite or restricted field's reader must already be cached.
   */
  ghost predicate FieldReady(m: ReaderMap, f: Field)
  {
    && WellFormedField(f)
    && (f.fieldType.PrimitiveProperty? ==> f.typ in m ==> m[f.typ].Some?)
    && (!f.fieldType.PrimitiveProperty? ==> FieldKey(f) in m && m[FieldKey(f)].Some?)
  }

  /** The cache after a field is visited: a primitive field's type gets a property reader if it has none. */
  function FieldStep(m: ReaderMap, f: Field): (m': ReaderMap)
  {
    if f.fieldType.PrimitiveProperty? && f.typ !in m then m[f.typ := Some(PropertyReader(f.name, f.typ))] else m
  }

  /** Every field is ready when its turn comes, in the cache the fields before it have left. */
  ghost predicate FieldsReady(m: ReaderMap, fields: seq<Field>)
    decreases |fields|
  {
    fields == [] || (FieldReady(m, fields[0]) && FieldsReady(FieldStep(m, fields[0]), fields[1..]))
  }

  lemma {:induction false} FieldsReadyWellFormed(m: ReaderMap, fields: seq<Field>, i: nat)
    requires FieldsReady(m, fields) && i < |fields|
    ensures WellFormedField(fields[i])
    decreases |fields|
  {
    if i > 0 {
      FieldsReadyWellFormed(FieldStep(m, fields[0]), fields[1..], i - 1);
    }
  }

  /** The types of the primitive fields. */
  function PrimitiveFieldTypes(fields: seq<Field>): set<string>
  {
    set f | f in fields && f.fieldType.PrimitiveProperty? :: f.typ
  }

  /** Visiting a ready field keeps the cache's entries and its invariant, and leaves a non-null reader under the field's key. */
  lemma FieldStepKeepsCache(m: ReaderMap, f: Field)
    requires FieldReady(m, f)
    ensures Extends(m, FieldStep(m, f))
    ensures FieldStep(m, f).Keys == m.Keys + PrimitiveFieldTypes([f])
    ensures KeysMatch(m) ==> KeysMatch(FieldStep(m, f))
    ensures FieldKey(f) in FieldStep(m, f) && FieldStep(m, f)[FieldKey(f)].Some?
  {
  }

  /**
   * The loop of `processComposite`: the cache it leaves and the field readers it collects, one per
   * field and in field order, each the reader the final cache holds under that field's key.
   */
  function CompositeFields(m: ReaderMap, fields: seq<Field>): (res: (ReaderMap, seq<Reader>))
    requires FieldsReady(m, fields)
    ensures Extends(m, res.0)
    ensures KeysMatch(m) ==> KeysMatch(res.0)
    ensures |res.1| == |fields|
    ensures forall i :: 0 <= i < |fields| ==>
      WellFormedField(fields[i]) && FieldKey(fields[i]) in res.0 && res.0[FieldKey(fields[i])] == Some(res.1[i])
    decreases |fields|
  {
    if fields == [] then (m, [])
    else
      var f := fields[0];
      var m1 := FieldStep(m, f);
      FieldStepKeepsCache(m, f);
      var rest := CompositeFields(m1, fields[1..]);
      var readers := [m1[FieldKey(f)].value] + rest.1;
      assert forall i :: 0 < i < |fields| ==> fields[i] == fields[1..][i - 1] && readers[i] == rest.1[i - 1];
      (rest.0, readers)
  }

  /** One turn of `processComposite`'s loop: the first field's reader, then the rest in the cache it leaves. */
  lemma CompositeFieldsStep(m: ReaderMap, fields: seq<Field>)
    requires FieldsReady(m, fields) && fields != []
    ensures FieldReady(m, fields[0]) && FieldsReady(FieldStep(m, fields[0]), fields[1..])
    ensures var m1 := FieldStep(m, fields[0]);
      CompositeFields(m, fields)
      == (CompositeFields(m1, fields[1..]).0, [m1[FieldKey(fields[0])].value] + CompositeFields(m1, fields[1..]).1)
  {
  }

  /** The only entries `processComposite` adds to the cache are the property readers of its primitive fields' types. */
  lemma {:induction false} CompositeFieldsAddsOnlyPrimitives(m: ReaderMap, fields: seq<Field>)
    requires FieldsReady(m, fields)
    ensures CompositeFields(m, fields).0.Keys == m.Keys + PrimitiveFieldTypes(fields)
    decreases |fields|
  {
    if fields != [] {
      var f := fields[0];
      FieldStepKeepsCache(m, f);
      CompositeFieldsAddsOnlyPrimitives(FieldStep(m, f), fields[1..]);
      assert fields == [f] + fields[1..];
      assert PrimitiveFieldTypes(fields) == PrimitiveFieldTypes([f]) + PrimitiveFieldTypes(fields[1..]);
    }
  }

  /** Each field reader a composite reader collects reads the type its field is cached under. */
  lemma FieldReadersReadTheirKeys(m: ReaderMap, fields: seq<Field>, i: nat)
    requires KeysMatch(m) && FieldsReady(m, fields) && i < |fields|
    ensures WellFormedField(fields[i]) && CompositeFields(m, fields).1[i].Type() == FieldKey(fields[i])
  {
    var res := CompositeFields(m, fields);
    assert WellFormedField(fields[i]) && FieldKey(fields[i]) in res.0 && res.0[FieldKey(fields[i])] == Some(res.1[i]);
  }

  /** What `processComposite` or `processRestricted` needs of the cache to build the reader of `t`. */
  ghost predicate BuildReady(m: ReaderMap, primitives: set<string>, t: TypeNotation)
  {
    match t
    case Composite(_, _, fields) => FieldsReady(m, fields)
    case Restricted(_, _, kind, listOf) => kind == List && listOf !in primitives ==> listOf in m
  }

  /**
   * `processComposite` / `processRestricted`: the cache afterwards and the reader built. A list of a
   * primitive type caches a property reader for its element type if missing; a list of anything else
   * takes the cached element reader; any restricted type that is not a list gets a null reader.
   */
  function BuildReader(m: ReaderMap, primitives: set<string>, t: TypeNotation): (res: (ReaderMap, Option<Reader>))
    requires BuildReady(m, primitives, t)
    ensures Extends(m, res.0)
    ensures KeysMatch(m) ==> KeysMatch(res.0)
    ensures res.1.Some? ==> res.1.value.Type() == t.name
    ensures t.Restricted? ==> (res.1.None? <==> t.restrictedType != List)
    ensures t.Restricted? && t.restrictedType != List ==> res.0 == m
    ensures t.Composite? ==>
      var fs := CompositeFields(m, t.fields);
      res == (fs.0, Some(CompositeReader(t.name, fs.1)))
    ensures t.Restricted? && t.restrictedType == List ==>
      && t.listOf in res.0
      && res.1 == Some(ListReader(t.name, res.0[t.listOf]))
      && (t.listOf in primitives && t.listOf !in m ==>
            res.0 == m[t.listOf := Some(PropertyReader(t.listOf, t.listOf))])
      && (t.listOf in m ==> res.0 == m)
  {
    match t
    case Composite(name, _, fields) =>
      var (m', readers) := CompositeFields(m, fields);
      (m', Some(CompositeReader(name, readers)))
    case Restricted(name, _, kind, listOf) =>
      if kind != List then (m, None)
      else if listOf in primitives then
        var m' := if listOf in m then m else m[listOf := Some(PropertyReader(listOf, listOf))];
        (m', Some(ListReader(name, m'[listOf])))
      else (m, Some(ListReader(name, m[listOf])))
  }

  /** A type can be processed: its reader is cached already, or it can be built. */
  ghost predicate TypeReady(m: ReaderMap, primitives: set<string>, t: TypeNotation)
  {
    t.name in m || BuildReady(m, primitives, t)
  }

  /**
   * `process` of one type notation, a compute-if-absent on its name: a cached reader is returned and
   * the cache left as it is; otherwise the reader is built and cached under the name.
   */
  function ProcessType(m: ReaderMap, primitives: set<string>, t: TypeNotation): (res: (ReaderMap, Option<Reader>))
    requires TypeReady(m, primitives, t)
    ensures t.name in m ==> res == (m, m[t.name])
    ensures t.name !in m ==> var b := BuildReader(m, primitives, t); res == (b.0[t.name := b.1], b.1)
    ensures Extends(m, res.0)
    ensures t.name in res.0 && res.0[t.name] == res.1
    ensures KeysMatch(m) ==> KeysMatch(res.0)
  {
    if t.name in m then (m, m[t.name])
    else
      var (m1, r) := BuildReader(m, primitives, t);
      (m1[t.name := r], r)
  }

  /** A composite type is never cached as null: on a miss its name gets a composite reader with one reader per field. */
  lemma CompositeIsNeverNull(m: ReaderMap, primitives: set<string>, t: TypeNotation)
    requires t.Composite? && t.name !in m && FieldsReady(m, t.fields)
    ensures var res := ProcessType(m, primitives, t);
      res.1.Some? && res.1.value.CompositeReader? && |res.1.value.fieldReaders| == |t.fields|
      && res.0[t.name] == res.1
  {
  }

  /**
   * Processing a list of a primitive type that is not cached yet caches a property reader for the
   * element type beside the list reader, which reads its elements with that very reader.
   */
  lemma ListOfPrimitiveCachesElement(m: ReaderMap, primitives: set<string>, t: TypeNotation)
    requires t.Restricted? && t.restrictedType == List && t.listOf in primitives
    requires t.name !in m && t.listOf !in m && t.listOf != t.name
    ensures var res := ProcessType(m, primitives, t);
      && res.0 == m[t.listOf := Some(PropertyReader(t.listOf, t.listOf))][t.name := res.1]
      && res.1 == Some(ListReader(t.name, Some(PropertyReader(t.listOf, t.listOf))))
  {
  }

  /** Every type can be processed when its turn comes (the schema is in dependency order). */
  ghost predicate TypesReady(m: ReaderMap, primitives: set<string>, types: seq<TypeNotation>)
    decreases |types|
  {
    types == [] || (TypeReady(m, primitives, types[0]) && TypesReady(ProcessType(m, primitives, types[0]).0, primitives, types[1..]))
  }

  /** The readers-by-type map after processing `types` in order. */
  function ProcessTypes(m: ReaderMap, primitives: set<string>, types: seq<TypeNotation>): (m': ReaderMap)
    requires TypesReady(m, primitives, types)
    ensures Extends(m, m')
    ensures forall t :: t in types ==> t.name in m'
    ensures KeysMatch(m) ==> KeysMatch(m')
    decreases |types|
  {
    if types == [] then m
    else ProcessTypes(ProcessType(m, primitives, types[0]).0, primitives, types[1..])
  }

  /** The readers-by-descriptor map after processing `types`: each descriptor gets the reader its type's name has just got. */
  function ProcessAliases(m: ReaderMap, d: ReaderMap, primitives: set<string>, types: seq<TypeNotation>): (d': ReaderMap)
    requires TypesReady(m, primitives, types)
    ensures d'.Keys == d.Keys + set t | t in types :: t.descriptor
    decreases |types|
  {
    if types == [] then d
    else
      var m1 := ProcessType(m, primitives, types[0]).0;
      var rest := ProcessAliases(m1, d[types[0].descriptor := m1[types[0].name]], primitives, types[1..]);
      assert types == [types[0]] + types[1..];
      rest
  }

  /** Processing `a + b` is processing `a`, then `b` from the maps `a` leaves. */
  lemma {:induction false} ProcessTypesConcat(m: ReaderMap, d: ReaderMap, primitives: set<string>, a: seq<TypeNotation>, b: seq<TypeNotation>)
    requires TypesReady(m, primitives, a + b)
    ensures TypesReady(m, primitives, a)
    ensures TypesReady(ProcessTypes(m, primitives, a), primitives, b)
    ensures ProcessTypes(m, primitives, a + b) == ProcessTypes(ProcessTypes(m, primitives, a), primitives, b)
    ensures ProcessAliases(m, d, primitives, a + b)
         == ProcessAliases(ProcessTypes(m, primitives, a), ProcessAliases(m, d, primitives, a), primitives, b)
    decreases |a|
  {
    if a == [] {
      assert a + b == b;
    } else {
      assert (a + b)[0] == a[0] && (a + b)[1..] == a[1..] + b;
      var m1 := ProcessType(m, primitives, a[0]).0;
      ProcessTypesConcat(m1, d[a[0].descriptor := m1[a[0].name]], primitives, a[1..], b);
    }
  }

  /** Processing leaves the descriptor entries of descriptors it does not meet as they were. */
  lemma {:induction false} AliasesKeepOthers(m: ReaderMap, d: ReaderMap, primitives: set<string>, types: seq<TypeNotation>, k: string)
    requires TypesReady(m, primitives, types)
    requires k in d && forall t :: t in types ==> t.descriptor != k
    ensures ProcessAliases(m, d, primitives, types)[k] == d[k]
    decreases |types|
  {
    if types != [] {
      var m1 := ProcessType(m, primitives, types[0]).0;
      AliasesKeepOthers(m1, d[types[0].descriptor := m1[types[0].name]], primitives, types[1..], k);
    }
  }

  /**
   * After processing, the descriptor of every processed type (not re-used by a later type) maps to the
   * very reader its name maps to in the readers-by-type map.
   */
  lemma {:induction false} DescriptorAliasesName(m: ReaderMap, d: ReaderMap, primitives: set<string>, types: seq<TypeNotation>, i: nat)
    requires TypesReady(m, primitives, types)
    requires i < |types|
    requires forall j :: i < j < |types| ==> types[j].descriptor != types[i].descriptor
    ensures types[i].descriptor in ProcessAliases(m, d, primitives, types)
    ensures types[i].name in ProcessTypes(m, primitives, types)
    ensures ProcessAliases(m, d, primitives, types)[types[i].descriptor] == ProcessTypes(m, primitives, types)[types[i].name]
    decreases |types|
  {
    var m1 := ProcessType(m, primitives, types[0]).0;
    var d1 := d[types[0].descriptor := m1[types[0].name]];
    if i == 0 {
      forall t | t in types[1..] ensures t.descriptor != types[0].descriptor {
        var j :| 0 <= j < |types[1..]| && types[1..][j] == t;
        assert types[j + 1] == t;
      }
      AliasesKeepOthers(m1, d1, primitives, types[1..], types[0].descriptor);
    } else {
      DescriptorAliasesName(m1, d1, primitives, types[1..], i - 1);
    }
  }

  /** Processing types that are all cached already is a run of cache hits: the map does not change. */
  lemma {:induction false} ProcessCachedTypes(m: ReaderMap, primitives: set<string>, types: seq<TypeNotation>)
    requires forall t :: t in types ==> t.name in m
    ensures TypesReady(m, primitives, types) && ProcessTypes(m, primitives, types) == m
  {
    if types != [] {
      assert types[0] in types;
      ProcessCachedTypes(m, primitives, types[1..]);
    }
  }

  /** Processing the same types a second time changes nothing in the readers-by-type map. */
  lemma ReprocessingIsCacheHit(m: ReaderMap, primitives: set<string>, types: seq<TypeNotation>)
    requires TypesReady(m, primitives, types)
    ensures TypesReady(ProcessTypes(m, primitives, types), primitives, types)
    ensures ProcessTypes(ProcessTypes(m, primitives, types), primitives, types) == ProcessTypes(m, primitives, types)
  {
    ProcessCachedTypes(ProcessTypes(m, primitives, types), primitives, types);
  }
}
