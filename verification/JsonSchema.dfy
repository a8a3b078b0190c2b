/** JSON values, and the part of JSON Schema draft 2020-12 the config schema uses. */
module JsonSchema {
  import opened Stages

  datatype Json = JNull | JBool(b: bool) | JNumber(r: real) | JString(s: string)
    | JArray(items: seq<Json>) | JObject(members: map<string, Json>)

  datatype JsonType = ObjectType | StringType | IntegerType | BooleanType

  /** A schema as the record of its keywords; an absent keyword constrains nothing.
      `closed` is additionalProperties: false, and an empty `anyOf` is none. */
  datatype Schema = Schema(
    kind: Option<JsonType>, properties: map<string, Schema>, required: seq<string>, closed: bool,
    enum: Option<seq<Json>>, pattern: Option<string>, minimum: Option<int>, maximum: Option<int>,
    minProperties: Option<nat>, negated: Option<Schema>, anyOf: seq<Schema>, default: Option<Json>)

  const Anything: Schema := Schema(None, map[], [], false, None, None, None, None, None, None, [], None)

  function Of(kind: JsonType): Schema { Anything.(kind := Some(kind)) }
  function Requiring(names: seq<string>): Schema { Anything.(required := names) }

  /** The regular expressions are a parameter: pattern and text to verdict. */
  type Matcher = (string, string) -> bool

  predicate IsInteger(r: real) { r == r.Floor as real }

  /** Validation section 6.1.1; an integer is a number without a fraction. */
  predicate HasKind(kind: JsonType, j: Json) {
    match kind
    case ObjectType => j.JObject?
    case StringType => j.JString?
    case IntegerType => j.JNumber? && IsInteger(j.r)
    case BooleanType => j.JBool?
  }

  /** Whether an instance satisfies every keyword: type (6.1.1), enum (6.1.2), maximum
      (6.2.2), minimum (6.2.4), pattern (6.3.3), minProperties (6.5.2) and required
      (6.5.3) of the Validation part; anyOf (10.2.1.2), not (10.2.1.4), properties
      (10.3.2.1) and additionalProperties (10.3.2.3) of the Core part. */
  predicate Accepts(re: Matcher, s: Schema, j: Json)
    decreases s
  {
    && (s.kind.Some? ==> HasKind(s.kind.value, j))
    && (s.enum.Some? ==> j in s.enum.value)
    && (s.pattern.Some? && j.JString? ==> re(s.pattern.value, j.s))
    && (s.minimum.Some? && j.JNumber? ==> j.r >= s.minimum.value as real)
    && (s.maximum.Some? && j.JNumber? ==> j.r <= s.maximum.value as real)
    && (j.JObject? ==>
          && (s.minProperties.Some? ==> |j.members| >= s.minProperties.value)
          && (forall name | name in s.required :: name in j.members)
          && (forall name | name in j.members && name in s.properties ::
             Accepts(re, s.properties[name], j.members[name]))
          && (s.closed ==> forall name | name in j.members :: name in s.properties))
    && (s.negated.Some? ==> !Accepts(re, s.negated.value, j))
    && (s.anyOf != [] ==> exists i | 0 <= i < |s.anyOf| :: Accepts(re, s.anyOf[i], j))
  }
}
