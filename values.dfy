/**
 * The slice of Go's `reflect` view of values that the validator reads,
 * replaced by explicit data: a value is a string, a signed or unsigned
 * integer, a struct with its field table, some other kind, or a pointer
 * that is nil or points to another value.
 */
module Values {
  import opened Text

  /** reflect.Kind, grouped as the validator dispatches on it. */
  datatype Kind = StringKind | IntKind | UintKind | FloatKind | StructKind | PointerKind | OtherKind

  /** A Go type, by name (for instance "string" or "*int"); assignability is equality. */
  type TypeId = string

  datatype Value =
    | Str(s: string)                 // kind String
    | Int(i: Int64)                  // kinds Int, Int8 .. Int64, read through Value.Int()
    | Uint(u: Uint64)                // kinds Uint, Uint8 .. Uint64, Uintptr, read through Value.Uint()
    | Record(fields: seq<Field>)     // kind Struct
    | Other                          // every other kind: bool, slice, map, interface, invalid, ...
    | Nil(elem: Kind)                // a nil pointer; `elem` is the kind of its element type
    | To(target: Value)              // a non-nil pointer to `target`

  /**
   * One entry of a struct's field table: what reflect.StructField and
   * Value.Field(i) expose. `tags` maps a tag key to its value.
   */
  datatype Field = Field(name: string, exported: bool, typ: TypeId, tags: map<string, string>, value: Value)

  /** Value.Kind() */
  function KindOf(v: Value): (k: Kind)
    ensures k == StringKind <==> v.Str?
    ensures k == IntKind <==> v.Int?
    ensures k == UintKind <==> v.Uint?
    ensures k == StructKind <==> v.Record?
    ensures k == PointerKind <==> v.Nil? || v.To?
    ensures k != FloatKind
  {
    match v
    case Str(_) => StringKind
    case Int(_) => IntKind
    case Uint(_) => UintKind
    case Record(_) => StructKind
    case Other => OtherKind
    case Nil(_) => PointerKind
    case To(_) => PointerKind
  }

  /** StructTag.Get: the value under `key`, or "" when the key is absent. */
  function Tag(tags: map<string, string>, key: string): string {
    if key in tags then tags[key] else ""
  }

  /** `n` pointer indirections in front of `v`. */
  function PointerChain(n: nat, v: Value): Value {
    if n == 0 then v else To(PointerChain(n - 1, v))
  }
}
