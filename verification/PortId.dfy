/**
 The packed 32-bit port address: slot in the high 28 bits, then two bits of port kind, a sentinel
 bit and the generation bit. Shifts are written as multiplication and division by powers of two;
 the fields do not overlap, so joining them is addition.
 */
module PortIds {
  import opened Arenas

  const NULL := 0
  const ERA := 2

  function KindBits(k: Kind): nat {
    match k
    case Principal => 0
    case Aux0 => 1
    case Aux1 => 2
  }

  function KindFromBits(bits: nat): Kind {
    if bits % 4 == 0 then Principal else if bits % 4 == 1 then Aux0 else Aux1
  }

  /** Bits of the slot past the 28th are shifted out. */
  function Pack(slot: nat, k: Kind, gen: nat): nat {
    slot * 16 % U32 + KindBits(k) * 4 + gen % 2
  }

  function SlotIdx(p: nat): nat { p / 16 }

  function PortKind(p: nat): Kind { KindFromBits(p / 4) }

  predicate IsEraser(p: nat) { p / 2 % 2 == 1 }

  function GenLow(p: nat): nat { p % 2 }

  predicate IsNull(p: nat) { p == NULL }

  /** Every field of a packed address reads back, and it is never taken for the eraser. */
  lemma PackReadsBack(slot: nat, k: Kind, gen: nat)
    requires slot < MAX_SLOTS
    ensures Pack(slot, k, gen) < U32
    ensures SlotIdx(Pack(slot, k, gen)) == slot
    ensures PortKind(Pack(slot, k, gen)) == k
    ensures GenLow(Pack(slot, k, gen)) == gen % 2
    ensures !IsEraser(Pack(slot, k, gen))
  {
    assert slot * 16 % U32 == slot * 16;
    var p := Pack(slot, k, gen);
    assert p / 4 == slot * 4 + KindBits(k);
    assert p / 2 == slot * 8 + KindBits(k) * 2;
  }

  /** The packed form of a port address. */
  function Raw(p: Port): nat {
    match p
    case Null => NULL
    case Eraser => ERA
    case At(slot, k, gen) => Pack(slot, k, gen)
  }

  /** How a packed address is read. */
  function Read(r: nat): Port {
    if IsEraser(r) then Eraser
    else if IsNull(r) then Null
    else At(SlotIdx(r), PortKind(r), GenLow(r))
  }

  /**
   A port survives packing exactly if it is a sentinel or addresses one of the 2^28 slots with a
   one-bit generation, other than the even principal port of slot 0, which packs to the null word.
   */
  lemma RawReadsBack(p: Port)
    ensures Read(Raw(p)) == p <==> (p.At? ==> p.slot < MAX_SLOTS && p.gen < 2 && p != At(0, Principal, 0))
  {
    if p.At? {
      if p.slot < MAX_SLOTS {
        PackReadsBack(p.slot, p.kind, p.gen);
        if Raw(p) == NULL { assert p.slot == 0 && p.kind.Principal? && p.gen % 2 == 0; }
      } else {
        assert Raw(p) < U32 + 16;
      }
    }
  }
}
