/** The 64-bit words behind `Entry`: the mask expressions of sys/virt_mmgr.c act on the
    three bit fields as the model of the tables says.  Here the address field is the
    40-bit number of the frame, 1/4096 of the address. */
module EntryBits {

  const ADDRESS: bv64 := 0x000F_FFFF_FFFF_F000

  /** Bits 63-52, 51-12 and 11-0. */
  function Word(high: bv12, frame: bv40, flags: bv12): (w: bv64)
  {
    (high as bv64 << 52) | (frame as bv64 << 12) | (flags as bv64)
  }

  /** Reading the address and testing the present bit. */
  lemma WordReads(high: bv12, frame: bv40, flags: bv12)
    ensures Word(high, frame, flags) & ADDRESS == frame as bv64 << 12
    ensures Word(high, frame, flags) & 1 == (flags & 1) as bv64
  {
  }

  /** Installing an address. */
  lemma WordInstalls(high: bv12, frame: bv40, flags: bv12, frame': bv40)
    ensures (Word(high, frame, flags) & !ADDRESS) | (frame' as bv64 << 12) == Word(high, frame', flags)
  {
  }

  /** Adding flags, and clearing the low byte. */
  lemma WordFlags(high: bv12, frame: bv40, flags: bv12, flags': bv12)
    ensures Word(high, frame, flags) | (flags' as bv64) == Word(high, frame, flags | flags')
    ensures Word(high, frame, flags) & !0xFF == Word(high, frame, flags & 0xF00)
  {
  }

  /** The word determines the fields. */
  lemma WordInjective(high: bv12, frame: bv40, flags: bv12, high': bv12, frame': bv40, flags': bv12)
    requires Word(high, frame, flags) == Word(high', frame', flags')
    ensures high == high' && frame == frame' && flags == flags'
  {
  }
}
