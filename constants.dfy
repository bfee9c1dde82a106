/**
 * Byte constants of the WebAssembly 1.0 binary format (sections 5.3, 5.4 and 5.5 of the
 * WebAssembly Core Specification) and the implementation-specific limits the interpreter uses.
 */
module Constants {

  // Module header (section 5.5.15), least significant byte first.
  const MAGIC: seq<bv8> := [0x00, 0x61, 0x73, 0x6D]
  const VERSION: seq<bv8> := [0x01, 0x00, 0x00, 0x00]

  // Section identifiers (section 5.5.2).
  const SECTION_CUSTOM: int := 0x00
  const SECTION_TYPE: int := 0x01
  const SECTION_FUNCTION: int := 0x03
  const SECTION_MEMORY: int := 0x05
  const SECTION_START: int := 0x08
  const SECTION_CODE: int := 0x0A
  const SECTION_DATA: int := 0x0B

  // Types (section 5.3).
  const TYPE_I32: bv8 := 0x7F
  const TYPE_I64: bv8 := 0x7E
  const TYPE_F32: bv8 := 0x7D
  const TYPE_F64: bv8 := 0x7C
  const RESULT_TYPE_EMPTY: bv8 := 0x40
  const FUNCTION_TYPE: bv8 := 0x60

  // Control instructions (section 5.4.1).
  const UNREACHABLE: bv8 := 0x00
  const NOP: bv8 := 0x01
  const BLOCK: bv8 := 0x02
  const LOOP: bv8 := 0x03
  const IF: bv8 := 0x04
  const ELSE: bv8 := 0x05
  const END: bv8 := 0x0B
  const BR_IF: bv8 := 0x0D
  const RETURN: bv8 := 0x0F
  const CALL: bv8 := 0x10
  /** The parametric `drop` instruction, matched by its literal value. */
  const DROP: bv8 := 0x1A

  // Variable instructions (section 5.4.3).
  const GET_LOCAL: bv8 := 0x20
  const SET_LOCAL: bv8 := 0x21
  const TEE_LOCAL: bv8 := 0x22

  // Memory instructions (section 5.4.4).
  const I32_LOAD: bv8 := 0x28
  const I32_LOAD8_S: bv8 := 0x2C
  const I32_LOAD8_U: bv8 := 0x2D
  const I32_LOAD16_S: bv8 := 0x2E
  const I32_LOAD16_U: bv8 := 0x2F
  const I32_STORE: bv8 := 0x36
  const I32_STORE8: bv8 := 0x3A
  const I32_STORE16: bv8 := 0x3B
  const CURRENT_MEMORY: bv8 := 0x3F
  const GROW_MEMORY: bv8 := 0x40

  // Numeric instructions (section 5.4.5).
  const I32_CONST: bv8 := 0x41
  const I32_EQZ: bv8 := 0x45
  const I32_EQ: bv8 := 0x46
  const I32_NE: bv8 := 0x47
  const I32_LT_S: bv8 := 0x48
  const I32_LT_U: bv8 := 0x49
  const I32_GT_S: bv8 := 0x4A
  const I32_GT_U: bv8 := 0x4B
  const I32_LE_S: bv8 := 0x4C
  const I32_LE_U: bv8 := 0x4D
  const I32_GE_S: bv8 := 0x4E
  const I32_GE_U: bv8 := 0x4F
  const I32_CLZ: bv8 := 0x67
  const I32_CTZ: bv8 := 0x68
  const I32_POPCNT: bv8 := 0x69
  const I32_ADD: bv8 := 0x6A
  const I32_SUB: bv8 := 0x6B
  const I32_MUL: bv8 := 0x6C
  const I32_DIV_S: bv8 := 0x6D
  const I32_DIV_U: bv8 := 0x6E
  const I32_REM_S: bv8 := 0x6F
  const I32_REM_U: bv8 := 0x70
  const I32_AND: bv8 := 0x71
  const I32_OR: bv8 := 0x72
  const I32_XOR: bv8 := 0x73
  const I32_SHL: bv8 := 0x74
  const I32_SHR_S: bv8 := 0x75
  const I32_SHR_U: bv8 := 0x76
  const I32_ROTL: bv8 := 0x77
  const I32_ROTR: bv8 := 0x78

  /** The opcode byte `(byte) read()` yields at the end of the code stream (Java's `-1`). */
  const END_OF_STREAM: bv8 := 0xFF

  // Linear memory.
  /** Size of one page in bytes, fixed by the WebAssembly specification. */
  const PAGE_SIZE_BYTES: nat := 65536
  /** Implementation ceiling on the page count: 128 pages are 8 MiB. */
  const PAGE_COUNT_MAX: int := 128
}
