/** The tagged 64-bit words that reportmand and its children exchange. */
module IpcCodec {
  type Word = bv64

  const COMMAND_FLAG: Word := 0xFF000000
  const COMMAND_NO: Word := 0xFF000000
  const COMMAND_YES: Word := 0xFF000001
  const COMMAND_ACK: Word := 0xFF000002
  const COMMAND_HEALTH_PROBE: Word := 0xFF000003
  const COMMAND_PANIC: Word := 0xFFACFFAC

  const VALUE_FLAG: Word := 0xF0000000
  const VALUE_MAX: Word := 0xEFFFFFFF

  // ~VALUE_FLAG is taken on a 32-bit unsigned int and then widened
  const VALUE_MASK: Word := 0x0FFFFFFF

  predicate IsCommand(msg: Word) {
    msg & COMMAND_FLAG == COMMAND_FLAG
  }

  predicate IsAck(msg: Word) {
    msg & COMMAND_ACK == COMMAND_ACK
  }

  predicate IsValue(msg: Word) {
    msg & VALUE_FLAG == VALUE_FLAG
  }

  /** (IPC_COMMANDS)msg: the enumeration is 32 bits wide. */
  function AsCommand(msg: Word): Word {
    msg & 0xFFFFFFFF
  }

  /** The word ipc_send_ulong writes; it refuses a value above the maximum. */
  predicate Sendable(value: Word) {
    value <= VALUE_MAX
  }

  function Encode(value: Word): (msg: Word)
    ensures IsValue(msg)
  {
    VALUE_FLAG | value
  }

  /** What ipc_get_ulong makes of a word; VALUE_FLAG itself means failure. */
  function Decode(msg: Word): Word {
    if !IsValue(msg) then VALUE_FLAG else msg & VALUE_MASK
  }

  /** The bit-vector facts behind the codec, on literal masks. */
  lemma LowBits(v: Word)
    ensures v & 0x0FFFFFFF == v % 0x10000000
    ensures (0xF0000000 | v) & 0x0FFFFFFF == v & 0x0FFFFFFF
    ensures v & 0x0FFFFFFF < 0xF0000000
    ensures v & 0x0FFFFFFF == v <==> v < 0x10000000
  {
  }

  lemma HighBits(v: Word)
    requires v <= 0xEFFFFFFF
    ensures 0xF0000000 | v == 0xF0000000 | (v & 0x0FFFFFFF)
    ensures (0xF0000000 | v) & 0xFF000000 == 0xFF000000 <==> (v >> 24) % 16 == 15
  {
  }

  /** Decoding an encoded value yields its low 28 bits and never the failure value; it is the
      value itself exactly when the value has no more bits than that. */
  lemma DecodeEncode(value: Word)
    requires value <= 0xEFFFFFFF
    ensures Sendable(value)
    ensures Decode(Encode(value)) == value & 0x0FFFFFFF == value % 0x10000000
    ensures Decode(Encode(value)) != 0xF0000000
    ensures Decode(Encode(value)) == value <==> value < 0x10000000
  {
    LowBits(value);
  }

  /** A word without the tag of a value is received as the failure value and one with it is not,
      but as its low 28 bits; and nothing above 0xEFFFFFFF is sent. */
  lemma DecodeExactly(msg: Word)
    ensures Decode(msg) == 0xF0000000 <==> msg & 0xF0000000 != 0xF0000000
    ensures msg & 0xF0000000 == 0xF0000000 ==> Decode(msg) == msg & 0x0FFFFFFF
    ensures Sendable(msg) <==> msg <= 0xEFFFFFFF
  {
    LowBits(msg);
  }

  /** A value that was sent is never received as the failure value. */
  lemma NeverFails(value: Word)
    ensures Decode(Encode(value)) != VALUE_FLAG
  {
    LowBits(value);
  }

  /** A sent value is mistaken for a command exactly when its bits 24 to 27 are all ones. */
  lemma ValueAsCommand(value: Word)
    requires value <= 0xEFFFFFFF
    ensures IsCommand(Encode(value)) <==> (value >> 24) % 16 == 15
  {
    HighBits(value);
  }

  lemma CommandMask(msg: Word)
    requires msg & 0xFF000000 == 0xFF000000
    ensures msg & 0xF0000000 == 0xF0000000
  {
  }

  /** Every command word passes for a value. */
  lemma CommandsAreValues(msg: Word)
    requires IsCommand(msg)
    ensures IsValue(msg)
  {
    CommandMask(msg);
  }

  /** Among the five commands only ACK and HEALTH_PROBE pass for an ACK. */
  lemma CommandsAsAck(msg: Word)
    requires msg in {0xFF000000, 0xFF000001, 0xFF000002, 0xFF000003, 0xFFACFFAC}
    ensures IsCommand(msg) && AsCommand(msg) == msg
    ensures IsAck(msg) <==> msg == 0xFF000002 || msg == 0xFF000003
  {
  }
}
