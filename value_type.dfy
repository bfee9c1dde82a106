/** The value types of WebAssembly and the byte that stands for each in the binary format. */
module ValueTypes {
  import opened Wrappers
  import opened Constants

  datatype ValueType = I32 | I64 | F32 | F64 | VOID

  /** `getByteValue`: the type's byte (`VOID` is the empty block type 0x40). */
  function ByteValue(t: ValueType): bv8 {
    match t
    case I32 => TYPE_I32
    case I64 => TYPE_I64
    case F32 => TYPE_F32
    case F64 => TYPE_F64
    case VOID => RESULT_TYPE_EMPTY
  }

  /** `fromByteValue`: the type a byte stands for, `None` (Java's null) for any other byte. */
  function FromByteValue(b: bv8): (r: Option<ValueType>)
    ensures r.Some? ==> ByteValue(r.value) == b
    ensures r.None? <==> forall t :: ByteValue(t) != b
  {
    if b == TYPE_I32 then Some(I32)
    else if b == TYPE_I64 then Some(I64)
    else if b == TYPE_F32 then Some(F32)
    else if b == TYPE_F64 then Some(F64)
    else if b == RESULT_TYPE_EMPTY then Some(VOID)
    else None
  }

  /** Every type survives the trip through its byte, so no two types share a byte. */
  lemma FromByteValueInverse(t: ValueType)
    ensures FromByteValue(ByteValue(t)) == Some(t)
  {
  }

  lemma ByteValueInjective(t: ValueType, u: ValueType)
    ensures ByteValue(t) == ByteValue(u) ==> t == u
  {
    FromByteValueInverse(t);
    FromByteValueInverse(u);
  }
}
