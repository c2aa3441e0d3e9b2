/**
 * The part of an AMQP schema the C++ reader factory walks: composite types with their fields, and
 * restricted types (of which only lists get a reader). A schema is a sequence of groups of type
 * notations, visited group by group.
 */
module AmqpSchema {

  datatype FieldType = PrimitiveProperty | CompositeProperty | RestrictedProperty

  /** A field of a composite type; `requiredTypes` (its `requires()`) names the restricted type a restricted field stands for first. */
  datatype Field = Field(name: string, typ: string, fieldType: FieldType, requiredTypes: seq<string>)

  datatype RestrictedType = List | OtherRestricted

  datatype TypeNotation =
    | Composite(name: string, descriptor: string, fields: seq<Field>)
    | Restricted(name: string, descriptor: string, restrictedType: RestrictedType, listOf: string)

  type Schema = seq<seq<TypeNotation>>

  /** The type notations of a schema in the order `process` visits them. */
  function Flatten(schema: Schema): seq<TypeNotation>
  {
    if schema == [] then [] else schema[0] + Flatten(schema[1..])
  }
}
