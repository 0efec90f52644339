/** The RESP value tree. The Go source keeps one struct with every field
    and a `typ` string naming the field that is meant (app/resp.go:25-33);
    here each `typ` is a constructor carrying only its own payload. */
module Values {
  import opened Wire
  import opened Decimal

  datatype Value =
    | SimpleString(str: seq<bv8>)  // typ "simple_string" (app/resp.go:111)
    | Error(str: seq<bv8>)         // typ "error" (app/resp.go:153)
    | Integer(num: int)            // typ "integer", num from int64 (app/resp.go:86)
    | BulkString(bulk: seq<bv8>)   // typ "bulk_string" (app/resp.go:125)
    | NullBulk                     // the untyped Value{} of app/resp.go:119
    | Array(elems: seq<Value>)     // typ "array" (app/resp.go:145)
    | Null                         // typ "null" (app/resp.go:94)
    | Boolean(truth: bool)         // typ "boolean" (app/resp.go:162-164)
    | Map(elems: seq<Value>)       // typ "map": keys at even, values at odd indices (app/resp.go:185)

  /** The tag byte that introduces a value's frame on the wire. */
  function Tag(v: Value): (b: bv8)
    ensures IsTag(b)
  {
    match v
    case SimpleString(_) => SIMPLE_STRING
    case Error(_) => ERROR
    case Integer(_) => INTEGER
    case BulkString(_) => BULK_STRING
    case NullBulk => BULK_STRING
    case Array(_) => ARRAY
    case Null => NULL
    case Boolean(_) => BOOLEAN
    case Map(_) => MAP
  }

  /** The values the encoder can write so that the decoder reads them back:
      one-line texts without CR or LF, integers and lengths within Go's
      64-bit `int`, and maps made of whole key/value pairs. */
  predicate Encodable(v: Value)
    decreases v
  {
    match v
    case SimpleString(str) => NoLineBreak(str)
    case Error(str) => NoLineBreak(str)
    case Integer(num) => InInt64(num)
    case BulkString(bulk) => |bulk| <= MAX_INT64
    case NullBulk => true
    case Array(elems) =>
      |elems| <= MAX_INT64 && forall i :: 0 <= i < |elems| ==> Encodable(elems[i])
    case Null => true
    case Boolean(_) => true
    case Map(elems) =>
      |elems| % 2 == 0 && |elems| / 2 <= MAX_INT64 &&
      forall i :: 0 <= i < |elems| ==> Encodable(elems[i])
  }
}
