/** The PHP values an option tree is made of. */
module Values {
  import opened OrderedMaps

  /** A PHP value. An array is an ordered map whose keys are strings (an
      integer key is written as its decimal string, which is the key PHP
      itself uses for it). An object is its class name and its properties,
      in declaration order: `props` stands for what
      `ReflectionClass::getProperties` lists, that is the declared properties
      (static ones included) and not the ones added dynamically. */
  datatype Value =
    | Null
    | Bool(b: bool)
    | Int(i: int)
    | Float(x: real)
    | Str(s: string)
    | Arr(entries: OrderedMap<Value>)
    | Obj(cls: string, props: OrderedMap<Value>)
  {
    /** Neither a string, an array nor an object: what a merge passes through. */
    predicate IsPlainScalar()
    {
      Null? || Bool? || Int? || Float?
    }
  }

  /** The type names an options schema may allow (`is_bool`, `is_string`, ...). */
  datatype TypeName = BoolType | StringType | IntType | FloatType | NullType | ArrayType | ObjectType

  predicate HasType(v: Value, t: TypeName)
  {
    match t
    case BoolType => v.Bool?
    case StringType => v.Str?
    case IntType => v.Int?
    case FloatType => v.Float?
    case NullType => v.Null?
    case ArrayType => v.Arr?
    case ObjectType => v.Obj?
  }
}
