/** The state byte of a cache entry: two low bits hold the kind, the top bit is the reference flag. */
module StateByte {

  const STATE_COLD: bv8 := 0x00
  const STATE_HOT: bv8 := 0x01
  const STATE_TEST: bv8 := 0x02
  const KIND_MASK: bv8 := 0x03
  const REF_BIT: bv8 := 0x80

  datatype Kind = Cold | Hot | Test

  datatype State = State(kind: Kind, ref: bool)

  function KindBits(k: Kind): bv8 {
    match k
    case Cold => STATE_COLD
    case Hot => STATE_HOT
    case Test => STATE_TEST
  }

  function Encode(s: State): bv8 {
    KindBits(s.kind) | (if s.ref then REF_BIT else 0)
  }

  /** How the eviction loop reads the byte: the reference bit is masked out before the switch. */
  function Decode(b: bv8): State {
    State(
      if b & KIND_MASK == STATE_HOT then Hot else if b & KIND_MASK == STATE_COLD then Cold else Test,
      b & REF_BIT != 0)
  }

  /** The six bytes the cache ever stores; low bits 11 and the five unused bits never occur. */
  predicate Legal(b: bv8) {
    b in {0x00, 0x01, 0x02, 0x80, 0x81, 0x82}
  }

  /** The six legal bytes and what they mean. */
  lemma Bytes()
    ensures Encode(State(Cold, false)) == 0x00 && Encode(State(Cold, true)) == 0x80
    ensures Encode(State(Hot, false)) == 0x01 && Encode(State(Hot, true)) == 0x81
    ensures Encode(State(Test, false)) == 0x02 && Encode(State(Test, true)) == 0x82
  {
  }

  lemma EncodeDecode(s: State)
    ensures Legal(Encode(s)) && Decode(Encode(s)) == s
  {
  }

  lemma OrRefBit(b: bv8)
    requires Legal(b)
    ensures Legal(b | REF_BIT) && Decode(b | REF_BIT) == Decode(b).(ref := true)
  {
  }

  lemma ClearRefBit(b: bv8)
    requires Legal(b)
    ensures Legal(b & !REF_BIT) && Decode(b & !REF_BIT) == Decode(b).(ref := false)
  {
  }

  /** The sweep tests one bit where the loop masks two; on the bytes that occur they agree. */
  lemma TestBit(b: bv8)
    requires Legal(b)
    ensures (b & STATE_TEST == 0) <==> !Decode(b).kind.Test?
  {
  }
}
