/**
 * CompositeFactory of the C++ AMQP deserialiser: it walks a schema in dependency order and builds a
 * reader for every type, caching readers by type name in `readersByType` (memoised through
 * compute-if-absent) and aliasing each type's descriptor to the same reader in `readersByDescriptor`.
 */
module AmqpCompositeFactory {
  import opened Wrappers
  import opened AmqpSchema
  import opened AmqpReaders

  class CompositeFactory {
    /** The type names `Field::typeIsPrimitive` accepts. */
    const primitives: set<string>
    var readersByType: ReaderMap
    var readersByDescriptor: ReaderMap

    /** Every reader cached under a type name reads that type. */
    ghost predicate Valid()
      reads this
    {
      KeysMatch(readersByType)
    }

    constructor (primitives: set<string>)
      ensures Valid() && this.primitives == primitives
      ensures readersByType == map[] && readersByDescriptor == map[]
    {
      this.primitives := primitives;
      readersByType := map[];
      readersByDescriptor := map[];
    }

    /**
     * `computeIfAbsent` on `readersByType`: a cached entry is returned and the map left as it is; a
     * missing key gets `f()`, which is returned.
     */
    method ComputeIfAbsent(k: string, f: () -> Option<Reader>) returns (r: Option<Reader>)
      modifies this`readersByType
      ensures k in old(readersByType) ==> r == old(readersByType)[k] && readersByType == old(readersByType)
      ensures k !in old(readersByType) ==> r == f() && readersByType == old(readersByType)[k := f()]
    {
      if k !in readersByType {
        readersByType := readersByType[k := f()];
      }
      r := readersByType[k];
    }

    /** The body of `processComposite`'s loop for one field: the reader the field is read with. */
    method FieldReader(field: Field) returns (reader: Option<Reader>)
      requires FieldReady(readersByType, field)
      modifies this`readersByType
      ensures readersByType == FieldStep(old(readersByType), field)
      ensures reader == readersByType[FieldKey(field)] && reader.Some?
    {
      match field.fieldType {
        case PrimitiveProperty =>
          reader := ComputeIfAbsent(field.typ, () => Some(PropertyReader(field.name, field.typ)));
        case CompositeProperty =>
          reader := readersByType[field.typ];
        case RestrictedProperty =>
          reader := readersByType[field.requiredTypes[0]];
      }
    }

    /** `processComposite`: one field reader per field, in field order, primitive ones cached on the way. */
    method ProcessComposite(t: TypeNotation) returns (r: Option<Reader>)
      requires t.Composite? && FieldsReady(readersByType, t.fields)
      modifies this`readersByType
      ensures (readersByType, r) == BuildReader(old(readersByType), primitives, t)
      ensures r.Some? && r.value.CompositeReader? && |r.value.fieldReaders| == |t.fields|
    {
      var readers: seq<Reader> := [];
      var i := 0;
      assert t.fields[i..] == t.fields;
      assert readers + CompositeFields(readersByType, t.fields).1 == CompositeFields(readersByType, t.fields).1;
      while i < |t.fields|
        invariant 0 <= i <= |t.fields|
        invariant FieldsReady(readersByType, t.fields[i..])
        invariant CompositeFields(old(readersByType), t.fields)
               == (CompositeFields(readersByType, t.fields[i..]).0, readers + CompositeFields(readersByType, t.fields[i..]).1)
      {
        ghost var before := readersByType;
        assert t.fields[i..][0] == t.fields[i] && t.fields[i..][1..] == t.fields[i + 1..];
        CompositeFieldsStep(before, t.fields[i..]);
        var reader := FieldReader(t.fields[i]);
        ghost var later := CompositeFields(readersByType, t.fields[i + 1..]);
        assert readers + ([reader.value] + later.1) == (readers + [reader.value]) + later.1;
        readers := readers + [reader.value];
        i := i + 1;
      }
      assert t.fields[i..] == [];
      assert readers + [] == readers;
      r := Some(CompositeReader(t.name, readers));
    }

    /** `processRestricted`: a list reader for a list, a null reader for any other restricted type. */
    method ProcessRestricted(t: TypeNotation) returns (r: Option<Reader>)
      requires t.Restricted? && BuildReady(readersByType, primitives, t)
      modifies this`readersByType
      ensures (readersByType, r) == BuildReader(old(readersByType), primitives, t)
      ensures t.restrictedType != List ==> r.None? && readersByType == old(readersByType)
      ensures t.restrictedType == List ==>
        t.listOf in readersByType && r == Some(ListReader(t.name, readersByType[t.listOf]))
      ensures t.restrictedType == List && t.listOf in primitives && t.listOf !in old(readersByType) ==>
        readersByType == old(readersByType)[t.listOf := Some(PropertyReader(t.listOf, t.listOf))]
      ensures t.restrictedType == List && t.listOf !in primitives ==> readersByType == old(readersByType)
    {
      if t.restrictedType == List {
        if t.listOf in primitives {
          var element := ComputeIfAbsent(t.listOf, () => Some(PropertyReader(t.listOf, t.listOf)));
          r := Some(ListReader(t.name, element));
        } else {
          r := Some(ListReader(t.name, readersByType[t.listOf]));
        }
      } else {
        r := None;
      }
    }

    /**
     * `process` of one type notation: compute-if-absent on the type's name, the reader being built by
     * `processComposite` or `processRestricted` only when the name is not cached.
     */
    method ProcessType(t: TypeNotation) returns (r: Option<Reader>)
      requires Valid() && TypeReady(readersByType, primitives, t)
      modifies this`readersByType
      ensures Valid()
      ensures (readersByType, r) == AmqpReaders.ProcessType(old(readersByType), primitives, t)
    {
      if t.name in readersByType {
        r := readersByType[t.name];
      } else {
        match t {
          case Composite(_, _, _) => r := ProcessComposite(t);
          case Restricted(_, _, _, _) => r := ProcessRestricted(t);
        }
        readersByType := readersByType[t.name := r];
      }
    }

    /**
     * The inner loop of `process` of a schema, over one group of type notations: each type processed in
     * order, its descriptor then aliased to the reader cached under its name.
     */
    method ProcessGroup(group: seq<TypeNotation>)
      requires Valid() && TypesReady(readersByType, primitives, group)
      modifies this
      ensures Valid()
      ensures readersByType == ProcessTypes(old(readersByType), primitives, group)
      ensures readersByDescriptor == ProcessAliases(old(readersByType), old(readersByDescriptor), primitives, group)
    {
      var b := 0;
      while b < |group|
        invariant 0 <= b <= |group|
        invariant Valid()
        invariant TypesReady(readersByType, primitives, group[b..])
        invariant ProcessTypes(old(readersByType), primitives, group) == ProcessTypes(readersByType, primitives, group[b..])
        invariant ProcessAliases(old(readersByType), old(readersByDescriptor), primitives, group)
               == ProcessAliases(readersByType, readersByDescriptor, primitives, group[b..])
      {
        var t := group[b];
        assert group[b..][0] == t && group[b..][1..] == group[b + 1..];
        var _ := ProcessType(t);
        readersByDescriptor := readersByDescriptor[t.descriptor := readersByType[t.name]];
        b := b + 1;
      }
      assert group[b..] == [];
    }

    /** `process` of a schema: every group of type notations, in order. */
    method Process(schema: Schema)
      requires Valid() && TypesReady(readersByType, primitives, Flatten(schema))
      modifies this
      ensures Valid()
      ensures readersByType == ProcessTypes(old(readersByType), primitives, Flatten(schema))
      ensures readersByDescriptor == ProcessAliases(old(readersByType), old(readersByDescriptor), primitives, Flatten(schema))
    {
      var a := 0;
      assert schema[a..] == schema;
      while a < |schema|
        invariant 0 <= a <= |schema|
        invariant Valid()
        invariant TypesReady(readersByType, primitives, Flatten(schema[a..]))
        invariant ProcessTypes(old(readersByType), primitives, Flatten(schema))
               == ProcessTypes(readersByType, primitives, Flatten(schema[a..]))
        invariant ProcessAliases(old(readersByType), old(readersByDescriptor), primitives, Flatten(schema))
               == ProcessAliases(readersByType, readersByDescriptor, primitives, Flatten(schema[a..]))
      {
        assert schema[a..][0] == schema[a] && schema[a..][1..] == schema[a + 1..];
        ProcessTypesConcat(readersByType, readersByDescriptor, primitives, schema[a], Flatten(schema[a + 1..]));
        ProcessGroup(schema[a]);
        a := a + 1;
      }
      assert schema[a..] == [];
    }

    /** `byType`: the reader cached under a type name, null when there is none; nothing changes. */
    method ByType(typeName: string) returns (r: Option<Reader>)
      ensures typeName in readersByType ==> r == readersByType[typeName]
      ensures typeName !in readersByType ==> r.None?
    {
      r := if typeName in readersByType then readersByType[typeName] else None;
    }

    /** `byDescriptor`: the reader aliased to a descriptor, null when there is none; nothing changes. */
    method ByDescriptor(descriptor: string) returns (r: Option<Reader>)
      ensures descriptor in readersByDescriptor ==> r == readersByDescriptor[descriptor]
      ensures descriptor !in readersByDescriptor ==> r.None?
    {
      r := if descriptor in readersByDescriptor then readersByDescriptor[descriptor] else None;
    }
  }
}
