/** The CRC-32 of SSM/App/Domain/Crc32.c: a bit-serial reference definition, the table the
    firmware looks bytes up in, and the byte loop proved against the reference.

    Every machine operation on a 32-bit register has a name (Xor, ShiftRight1, ...), so that
    proofs combine their laws instead of reasoning about single bits. */
module Crc32 {

  const ALL_ONES: bv32 := 0xFFFFFFFF
  const POLYNOMIAL: bv32 := 0xEDB88320

  function Xor(a: bv32, b: bv32): bv32 { a ^ b }

  predicate Odd(r: bv32) { r & 1 == 1 }

  function ShiftRight1(r: bv32): bv32 { r >> 1 }

  function ShiftRight8(r: bv32): bv32 { r >> 8 }

  function Widen(b: bv8): bv32 { b as bv32 }

  function XorByte(a: bv8, b: bv8): bv8 { a ^ b }

  predicate OddByte(b: bv8) { b & 1 == 1 }

  function HalfByte(b: bv8): bv8 { b >> 1 }

  function LowByte(r: bv32): bv8 { (r & 0xFF) as bv8 }

  // ----- reference definition: one message bit at a time -----

  /** One clock of the reflected shift register. */
  function BitStep(r: bv32): bv32 {
    if Odd(r) then Xor(ShiftRight1(r), POLYNOMIAL) else ShiftRight1(r)
  }

  function FeedBit(r: bv32, bit: bool): bv32 {
    BitStep(Xor(r, if bit then 1 else 0))
  }

  function FeedBits(r: bv32, bits: seq<bool>): bv32
    decreases |bits|
  {
    if bits == [] then r else FeedBits(FeedBit(r, bits[0]), bits[1..])
  }

  /** The n low bits of a byte, least significant first. */
  function LowBits(b: bv8, n: nat): (bits: seq<bool>)
    ensures |bits| == n
    decreases n
  {
    if n == 0 then [] else [OddByte(b)] + LowBits(HalfByte(b), n - 1)
  }

  function Bits(data: seq<bv8>): (bits: seq<bool>)
    ensures |bits| == 8 * |data|
    decreases |data|
  {
    if data == [] then [] else LowBits(data[0], 8) + Bits(data[1..])
  }

  /** The register after a whole byte string. */
  function Register(r: bv32, data: seq<bv8>): bv32 {
    FeedBits(r, Bits(data))
  }

  /** CRC-32/ISO-HDLC of a byte string. */
  function Crc(data: seq<bv8>): bv32 {
    Xor(Register(ALL_ONES, data), ALL_ONES)
  }

  // ----- the firmware's form: one byte at a time through a table -----

  function Steps(r: bv32, n: nat): bv32
    decreases n
  {
    if n == 0 then r else Steps(BitStep(r), n - 1)
  }

  /** The register after one byte: the byte is added to it and clocked through. */
  function ByteStep(r: bv32, b: bv8): bv32 { Steps(Xor(r, Widen(b)), 8) }

  lemma {:induction false} LastStep(r: bv32, n: nat)
    ensures Steps(r, n + 1) == BitStep(Steps(r, n))
    decreases n
  {
    if n > 0 {
      LastStep(BitStep(r), n - 1);
    }
  }

  lemma EightSteps(r: bv32)
    ensures Steps(r, 8) == BitStep(BitStep(BitStep(BitStep(BitStep(BitStep(BitStep(BitStep(r))))))))
  {
    assert Steps(r, 1) == BitStep(r);
    LastStep(r, 1);
    LastStep(r, 2);
    LastStep(r, 3);
    LastStep(r, 4);
    LastStep(r, 5);
    LastStep(r, 6);
    LastStep(r, 7);
  }

  function TableRow0(i: bv8): (entry: bv32)
    requires i & 0xF0 == 0x00
    ensures entry == Steps(Widen(i), 8)
  {
    EightSteps(Widen(i));
    match i
    case 0x00 => 0x00000000 case 0x01 => 0x77073096 case 0x02 => 0xEE0E612C case 0x03 => 0x990951BA
    case 0x04 => 0x076DC419 case 0x05 => 0x706AF48F case 0x06 => 0xE963A535 case 0x07 => 0x9E6495A3
    case 0x08 => 0x0EDB8832 case 0x09 => 0x79DCB8A4 case 0x0A => 0xE0D5E91E case 0x0B => 0x97D2D988
    case 0x0C => 0x09B64C2B case 0x0D => 0x7EB17CBD case 0x0E => 0xE7B82D07 case _ => 0x90BF1D91
  }

  function TableRow1(i: bv8): (entry: bv32)
    requires i & 0xF0 == 0x10
    ensures entry == Steps(Widen(i), 8)
  {
    EightSteps(Widen(i));
    match i
    case 0x10 => 0x1DB71064 case 0x11 => 0x6AB020F2 case 0x12 => 0xF3B97148 case 0x13 => 0x84BE41DE
    case 0x14 => 0x1ADAD47D case 0x15 => 0x6DDDE4EB case 0x16 => 0xF4D4B551 case 0x17 => 0x83D385C7
    case 0x18 => 0x136C9856 case 0x19 => 0x646BA8C0 case 0x1A => 0xFD62F97A case 0x1B => 0x8A65C9EC
    case 0x1C => 0x14015C4F case 0x1D => 0x63066CD9 case 0x1E => 0xFA0F3D63 case _ => 0x8D080DF5
  }

  function TableRow2(i: bv8): (entry: bv32)
    requires i & 0xF0 == 0x20
    ensures entry == Steps(Widen(i), 8)
  {
    EightSteps(Widen(i));
    match i
    case 0x20 => 0x3B6E20C8 case 0x21 => 0x4C69105E case 0x22 => 0xD56041E4 case 0x23 => 0xA2677172
    case 0x24 => 0x3C03E4D1 case 0x25 => 0x4B04D447 case 0x26 => 0xD20D85FD case 0x27 => 0xA50AB56B
    case 0x28 => 0x35B5A8FA case 0x29 => 0x42B2986C case 0x2A => 0xDBBBC9D6 case 0x2B => 0xACBCF940
    case 0x2C => 0x32D86CE3 case 0x2D => 0x45DF5C75 case 0x2E => 0xDCD60DCF case _ => 0xABD13D59
  }

  function TableRow3(i: bv8): (entry: bv32)
    requires i & 0xF0 == 0x30
    ensures entry == Steps(Widen(i), 8)
  {
    EightSteps(Widen(i));
    match i
    case 0x30 => 0x26D930AC case 0x31 => 0x51DE003A case 0x32 => 0xC8D75180 case 0x33 => 0xBFD06116
    case 0x34 => 0x21B4F4B5 case 0x35 => 0x56B3C423 case 0x36 => 0xCFBA9599 case 0x37 => 0xB8BDA50F
    case 0x38 => 0x2802B89E case 0x39 => 0x5F058808 case 0x3A => 0xC60CD9B2 case 0x3B => 0xB10BE924
    case 0x3C => 0x2F6F7C87 case 0x3D => 0x58684C11 case 0x3E => 0xC1611DAB case _ => 0xB6662D3D
  }

  function TableRow4(i: bv8): (entry: bv32)
    requires i & 0xF0 == 0x40
    ensures entry == Steps(Widen(i), 8)
  {
    EightSteps(Widen(i));
    match i
    case 0x40 => 0x76DC4190 case 0x41 => 0x01DB7106 case 0x42 => 0x98D220BC case 0x43 => 0xEFD5102A
    case 0x44 => 0x71B18589 case 0x45 => 0x06B6B51F case 0x46 => 0x9FBFE4A5 case 0x47 => 0xE8B8D433
    case 0x48 => 0x7807C9A2 case 0x49 => 0x0F00F934 case 0x4A => 0x9609A88E case 0x4B => 0xE10E9818
    case 0x4C => 0x7F6A0DBB case 0x4D => 0x086D3D2D case 0x4E => 0x91646C97 case _ => 0xE6635C01
  }

  function TableRow5(i: bv8): (entry: bv32)
    requires i & 0xF0 == 0x50
    ensures entry == Steps(Widen(i), 8)
  {
    EightSteps(Widen(i));
    match i
    case 0x50 => 0x6B6B51F4 case 0x51 => 0x1C6C6162 case 0x52 => 0x856530D8 case 0x53 => 0xF262004E
    case 0x54 => 0x6C0695ED case 0x55 => 0x1B01A57B case 0x56 => 0x8208F4C1 case 0x57 => 0xF50FC457
    case 0x58 => 0x65B0D9C6 case 0x59 => 0x12B7E950 case 0x5A => 0x8BBEB8EA case 0x5B => 0xFCB9887C
    case 0x5C => 0x62DD1DDF case 0x5D => 0x15DA2D49 case 0x5E => 0x8CD37CF3 case _ => 0xFBD44C65
  }

  function TableRow6(i: bv8): (entry: bv32)
    requires i & 0xF0 == 0x60
    ensures entry == Steps(Widen(i), 8)
  {
    EightSteps(Widen(i));
    match i
    case 0x60 => 0x4DB26158 case 0x61 => 0x3AB551CE case 0x62 => 0xA3BC0074 case 0x63 => 0xD4BB30E2
    case 0x64 => 0x4ADFA541 case 0x65 => 0x3DD895D7 case 0x66 => 0xA4D1C46D case 0x67 => 0xD3D6F4FB
    case 0x68 => 0x4369E96A case 0x69 => 0x346ED9FC case 0x6A => 0xAD678846 case 0x6B => 0xDA60B8D0
    case 0x6C => 0x44042D73 case 0x6D => 0x33031DE5 case 0x6E => 0xAA0A4C5F case _ => 0xDD0D7CC9
  }

  function TableRow7(i: bv8): (entry: bv32)
    requires i & 0xF0 == 0x70
    ensures entry == Steps(Widen(i), 8)
  {
    EightSteps(Widen(i));
    match i
    case 0x70 => 0x5005713C case 0x71 => 0x270241AA case 0x72 => 0xBE0B1010 case 0x73 => 0xC90C2086
    case 0x74 => 0x5768B525 case 0x75 => 0x206F85B3 case 0x76 => 0xB966D409 case 0x77 => 0xCE61E49F
    case 0x78 => 0x5EDEF90E case 0x79 => 0x29D9C998 case 0x7A => 0xB0D09822 case 0x7B => 0xC7D7A8B4
    case 0x7C => 0x59B33D17 case 0x7D => 0x2EB40D81 case 0x7E => 0xB7BD5C3B case _ => 0xC0BA6CAD
  }

  function TableRow8(i: bv8): (entry: bv32)
    requires i & 0xF0 == 0x80
    ensures entry == Steps(Widen(i), 8)
  {
    EightSteps(Widen(i));
    match i
    case 0x80 => 0xEDB88320 case 0x81 => 0x9ABFB3B6 case 0x82 => 0x03B6E20C case 0x83 => 0x74B1D29A
    case 0x84 => 0xEAD54739 case 0x85 => 0x9DD277AF case 0x86 => 0x04DB2615 case 0x87 => 0x73DC1683
    case 0x88 => 0xE3630B12 case 0x89 => 0x94643B84 case 0x8A => 0x0D6D6A3E case 0x8B => 0x7A6A5AA8
    case 0x8C => 0xE40ECF0B case 0x8D => 0x9309FF9D case 0x8E => 0x0A00AE27 case _ => 0x7D079EB1
  }

  function TableRow9(i: bv8): (entry: bv32)
    requires i & 0xF0 == 0x90
    ensures entry == Steps(Widen(i), 8)
  {
    EightSteps(Widen(i));
    match i
    case 0x90 => 0xF00F9344 case 0x91 => 0x8708A3D2 case 0x92 => 0x1E01F268 case 0x93 => 0x6906C2FE
    case 0x94 => 0xF762575D case 0x95 => 0x806567CB case 0x96 => 0x196C3671 case 0x97 => 0x6E6B06E7
    case 0x98 => 0xFED41B76 case 0x99 => 0x89D32BE0 case 0x9A => 0x10DA7A5A case 0x9B => 0x67DD4ACC
    case 0x9C => 0xF9B9DF6F case 0x9D => 0x8EBEEFF9 case 0x9E => 0x17B7BE43 case _ => 0x60B08ED5
  }

  function TableRowA(i: bv8): (entry: bv32)
    requires i & 0xF0 == 0xA0
    ensures entry == Steps(Widen(i), 8)
  {
    EightSteps(Widen(i));
    match i
    case 0xA0 => 0xD6D6A3E8 case 0xA1 => 0xA1D1937E case 0xA2 => 0x38D8C2C4 case 0xA3 => 0x4FDFF252
    case 0xA4 => 0xD1BB67F1 case 0xA5 => 0xA6BC5767 case 0xA6 => 0x3FB506DD case 0xA7 => 0x48B2364B
    case 0xA8 => 0xD80D2BDA case 0xA9 => 0xAF0A1B4C case 0xAA => 0x36034AF6 case 0xAB => 0x41047A60
    case 0xAC => 0xDF60EFC3 case 0xAD => 0xA867DF55 case 0xAE => 0x316E8EEF case _ => 0x4669BE79
  }

  function TableRowB(i: bv8): (entry: bv32)
    requires i & 0xF0 == 0xB0
    ensures entry == Steps(Widen(i), 8)
  {
    EightSteps(Widen(i));
    match i
    case 0xB0 => 0xCB61B38C case 0xB1 => 0xBC66831A case 0xB2 => 0x256FD2A0 case 0xB3 => 0x5268E236
    case 0xB4 => 0xCC0C7795 case 0xB5 => 0xBB0B4703 case 0xB6 => 0x220216B9 case 0xB7 => 0x5505262F
    case 0xB8 => 0xC5BA3BBE case 0xB9 => 0xB2BD0B28 case 0xBA => 0x2BB45A92 case 0xBB => 0x5CB36A04
    case 0xBC => 0xC2D7FFA7 case 0xBD => 0xB5D0CF31 case 0xBE => 0x2CD99E8B case _ => 0x5BDEAE1D
  }

  function TableRowC(i: bv8): (entry: bv32)
    requires i & 0xF0 == 0xC0
    ensures entry == Steps(Widen(i), 8)
  {
    EightSteps(Widen(i));
    match i
    case 0xC0 => 0x9B64C2B0 case 0xC1 => 0xEC63F226 case 0xC2 => 0x756AA39C case 0xC3 => 0x026D930A
    case 0xC4 => 0x9C0906A9 case 0xC5 => 0xEB0E363F case 0xC6 => 0x72076785 case 0xC7 => 0x05005713
    case 0xC8 => 0x95BF4A82 case 0xC9 => 0xE2B87A14 case 0xCA => 0x7BB12BAE case 0xCB => 0x0CB61B38
    case 0xCC => 0x92D28E9B case 0xCD => 0xE5D5BE0D case 0xCE => 0x7CDCEFB7 case _ => 0x0BDBDF21
  }

  function TableRowD(i: bv8): (entry: bv32)
    requires i & 0xF0 == 0xD0
    ensures entry == Steps(Widen(i), 8)
  {
    EightSteps(Widen(i));
    match i
    case 0xD0 => 0x86D3D2D4 case 0xD1 => 0xF1D4E242 case 0xD2 => 0x68DDB3F8 case 0xD3 => 0x1FDA836E
    case 0xD4 => 0x81BE16CD case 0xD5 => 0xF6B9265B case 0xD6 => 0x6FB077E1 case 0xD7 => 0x18B74777
    case 0xD8 => 0x88085AE6 case 0xD9 => 0xFF0F6A70 case 0xDA => 0x66063BCA case 0xDB => 0x11010B5C
    case 0xDC => 0x8F659EFF case 0xDD => 0xF862AE69 case 0xDE => 0x616BFFD3 case _ => 0x166CCF45
  }

  function TableRowE(i: bv8): (entry: bv32)
    requires i & 0xF0 == 0xE0
    ensures entry == Steps(Widen(i), 8)
  {
    EightSteps(Widen(i));
    match i
    case 0xE0 => 0xA00AE278 case 0xE1 => 0xD70DD2EE case 0xE2 => 0x4E048354 case 0xE3 => 0x3903B3C2
    case 0xE4 => 0xA7672661 case 0xE5 => 0xD06016F7 case 0xE6 => 0x4969474D case 0xE7 => 0x3E6E77DB
    case 0xE8 => 0xAED16A4A case 0xE9 => 0xD9D65ADC case 0xEA => 0x40DF0B66 case 0xEB => 0x37D83BF0
    case 0xEC => 0xA9BCAE53 case 0xED => 0xDEBB9EC5 case 0xEE => 0x47B2CF7F case _ => 0x30B5FFE9
  }

  function TableRowF(i: bv8): (entry: bv32)
    requires i & 0xF0 == 0xF0
    ensures entry == Steps(Widen(i), 8)
  {
    EightSteps(Widen(i));
    match i
    case 0xF0 => 0xBDBDF21C case 0xF1 => 0xCABAC28A case 0xF2 => 0x53B39330 case 0xF3 => 0x24B4A3A6
    case 0xF4 => 0xBAD03605 case 0xF5 => 0xCDD70693 case 0xF6 => 0x54DE5729 case 0xF7 => 0x23D967BF
    case 0xF8 => 0xB3667A2E case 0xF9 => 0xC4614AB8 case 0xFA => 0x5D681B02 case 0xFB => 0x2A6F2B94
    case 0xFC => 0xB40BBE37 case 0xFD => 0xC30C8EA1 case 0xFE => 0x5A05DF1B case _ => 0x2D02EF8D
  }

  /** Entry i of the 256-word constant table. */
  function TableEntry(i: bv8): (entry: bv32)
    ensures entry == Steps(Widen(i), 8)
  {
    match i & 0xF0
    case 0x00 => TableRow0(i)
    case 0x10 => TableRow1(i)
    case 0x20 => TableRow2(i)
    case 0x30 => TableRow3(i)
    case 0x40 => TableRow4(i)
    case 0x50 => TableRow5(i)
    case 0x60 => TableRow6(i)
    case 0x70 => TableRow7(i)
    case 0x80 => TableRow8(i)
    case 0x90 => TableRow9(i)
    case 0xA0 => TableRowA(i)
    case 0xB0 => TableRowB(i)
    case 0xC0 => TableRowC(i)
    case 0xD0 => TableRowD(i)
    case 0xE0 => TableRowE(i)
    case _ => TableRowF(i)
  }

  /** The body of the byte loop. */
  function TableStep(r: bv32, b: bv8): bv32 {
    Xor(ShiftRight8(r), TableEntry(LowByte(Xor(r, Widen(b)))))
  }

  method Compute(bytes: seq<bv8>, len: nat) returns (crc: bv32)
    requires len <= |bytes| && len < 0x10000
    ensures crc == Crc(bytes[..len])
  {
    crc := ALL_ONES;
    var i := 0;
    while i < len
      invariant i <= len
      invariant Register(crc, bytes[i..len]) == Register(ALL_ONES, bytes[..len])
    {
      RegisterCons(crc, bytes[i..len]);
      TableStepIsByteStep(crc, bytes[i]);
      assert bytes[i..len][1..] == bytes[i + 1..len];
      crc := TableStep(crc, bytes[i]);
      i := i + 1;
    }
    assert bytes[i..len] == [];
    crc := Xor(crc, ALL_ONES);
  }

  // ----- laws of the machine operations -----

  lemma XorAssoc(a: bv32, b: bv32, c: bv32)
    ensures Xor(Xor(a, b), c) == Xor(a, Xor(b, c))
  {
  }

  lemma XorComm(a: bv32, b: bv32)
    ensures Xor(a, b) == Xor(b, a)
  {
  }

  lemma XorSelf(a: bv32)
    ensures Xor(a, a) == 0 && Xor(a, 0) == a
  {
  }

  /** (a ^ b) ^ (c ^ d) == (a ^ c) ^ (b ^ d) */
  lemma XorSwap(a: bv32, b: bv32, c: bv32, d: bv32)
    ensures Xor(Xor(a, b), Xor(c, d)) == Xor(Xor(a, c), Xor(b, d))
  {
    XorAssoc(a, b, Xor(c, d));
    XorAssoc(b, c, d);
    XorComm(b, c);
    XorAssoc(c, b, d);
    XorAssoc(a, c, Xor(b, d));
  }

  lemma ShiftRight1Linear(a: bv32, b: bv32)
    ensures ShiftRight1(Xor(a, b)) == Xor(ShiftRight1(a), ShiftRight1(b))
  {
  }

  lemma OddLinear(a: bv32, b: bv32)
    ensures Odd(Xor(a, b)) <==> (Odd(a) != Odd(b))
  {
  }

  // ----- clocking the register is linear over exclusive or -----

  lemma BitStepLinear(a: bv32, b: bv32)
    ensures BitStep(Xor(a, b)) == Xor(BitStep(a), BitStep(b))
  {
    var h, k := ShiftRight1(a), ShiftRight1(b);
    ShiftRight1Linear(a, b);
    OddLinear(a, b);
    XorAssoc(h, k, POLYNOMIAL);
    XorComm(k, POLYNOMIAL);
    XorAssoc(h, POLYNOMIAL, k);
    XorSwap(h, POLYNOMIAL, k, POLYNOMIAL);
    XorSelf(POLYNOMIAL);
    XorSelf(Xor(h, k));
  }

  lemma {:induction false} StepsLinear(a: bv32, b: bv32, n: nat)
    ensures Steps(Xor(a, b), n) == Xor(Steps(a, n), Steps(b, n))
    decreases n
  {
    if n > 0 {
      BitStepLinear(a, b);
      StepsLinear(BitStep(a), BitStep(b), n - 1);
    }
  }

  // ----- the table step is eight bit steps -----

  function Drop(b: bv8, n: nat): bv8
    decreases n
  {
    if n == 0 then b else Drop(HalfByte(b), n - 1)
  }

  lemma DropByte(b: bv8)
    ensures Drop(b, 8) == 0
  {
    var b2 := HalfByte(HalfByte(b));
    var b4 := HalfByte(HalfByte(b2));
    var b6 := HalfByte(HalfByte(b4));
    assert Drop(b, 8) == Drop(b2, 6) == Drop(b4, 4) == Drop(b6, 2) == HalfByte(HalfByte(b6));
    EightHalves(b);
  }

  lemma EightHalves(b: bv8)
    ensures HalfByte(HalfByte(HalfByte(HalfByte(HalfByte(HalfByte(HalfByte(HalfByte(b)))))))) == 0
  {
  }

  /** A byte is its lowest bit and the rest. */
  lemma SplitLowestBit(b: bv8)
    ensures Widen(b) == Xor(if OddByte(b) then 1 else 0, Widen(b & 0xFE))
    ensures BitStep(Widen(b & 0xFE)) == Widen(HalfByte(b))
  {
  }

  lemma BitStepPeelsOneBit(r: bv32, b: bv8)
    ensures BitStep(Xor(r, Widen(b))) == Xor(FeedBit(r, OddByte(b)), Widen(HalfByte(b)))
  {
    var low: bv32, high := if OddByte(b) then 1 else 0, Widen(b & 0xFE);
    SplitLowestBit(b);
    XorAssoc(r, low, high);
    BitStepLinear(Xor(r, low), high);
  }

  lemma {:induction false} FeedLowBits(r: bv32, b: bv8, n: nat)
    ensures Steps(Xor(r, Widen(b)), n) == Xor(FeedBits(r, LowBits(b, n)), Widen(Drop(b, n)))
    decreases n
  {
    if n > 0 {
      BitStepPeelsOneBit(r, b);
      FeedLowBits(FeedBit(r, OddByte(b)), HalfByte(b), n - 1);
      assert LowBits(b, n)[1..] == LowBits(HalfByte(b), n - 1);
    }
  }

  /** The upper three bytes of a register. */
  function Upper(r: bv32): bv32 { r & 0xFFFFFF00 }

  lemma EightStepsOfUpper(r: bv32)
    ensures Steps(Upper(r), 8) == ShiftRight8(r)
  {
    EightSteps(Upper(r));
  }

  lemma SplitLowByte(r: bv32)
    ensures r == Xor(Upper(r), Widen(LowByte(r)))
  {
  }

  lemma ShiftRight8Absorbs(r: bv32, b: bv8)
    ensures ShiftRight8(Xor(r, Widen(b))) == ShiftRight8(r)
  {
  }

  lemma EightStepsSplit(r: bv32)
    ensures Steps(r, 8) == Xor(ShiftRight8(r), TableEntry(LowByte(r)))
  {
    SplitLowByte(r);
    StepsLinear(Upper(r), Widen(LowByte(r)), 8);
    EightStepsOfUpper(r);
  }

  /** Feeding the eight bits of a byte one at a time is the byte step. */
  lemma EightBitsAreByteStep(r: bv32, b: bv8)
    ensures FeedBits(r, LowBits(b, 8)) == ByteStep(r, b)
  {
    FeedLowBits(r, b, 8);
    DropByte(b);
    XorSelf(FeedBits(r, LowBits(b, 8)));
  }

  /** The table form refines the bit-serial form, byte by byte. */
  lemma TableStepIsByteStep(r: bv32, b: bv8)
    ensures TableStep(r, b) == ByteStep(r, b)
  {
    EightStepsSplit(Xor(r, Widen(b)));
    ShiftRight8Absorbs(r, b);
  }

  lemma {:induction false} FeedConcat(r: bv32, p: seq<bool>, q: seq<bool>)
    ensures FeedBits(r, p + q) == FeedBits(FeedBits(r, p), q)
    decreases |p|
  {
    if p == [] {
      assert p + q == q;
    } else {
      assert (p + q)[1..] == p[1..] + q;
      FeedConcat(FeedBit(r, p[0]), p[1..], q);
    }
  }

  lemma RegisterCons(r: bv32, data: seq<bv8>)
    requires data != []
    ensures Register(r, data) == Register(ByteStep(r, data[0]), data[1..])
  {
    FeedConcat(r, LowBits(data[0], 8), Bits(data[1..]));
    EightBitsAreByteStep(r, data[0]);
  }

  lemma {:induction false} BitsConcat(a: seq<bv8>, b: seq<bv8>)
    ensures Bits(a + b) == Bits(a) + Bits(b)
    decreases |a|
  {
    if a == [] {
      assert a + b == b;
    } else {
      assert (a + b)[1..] == a[1..] + b;
      BitsConcat(a[1..], b);
    }
  }

  lemma RegisterConcat(r: bv32, a: seq<bv8>, b: seq<bv8>)
    ensures Register(r, a + b) == Register(Register(r, a), b)
  {
    BitsConcat(a, b);
    FeedConcat(r, Bits(a), Bits(b));
  }

  // ----- affinity -----

  function XorBytes(a: seq<bv8>, b: seq<bv8>): (c: seq<bv8>)
    requires |a| == |b|
    ensures |c| == |a|
  {
    seq(|a|, i requires 0 <= i < |a| => XorByte(a[i], b[i]))
  }

  function XorBool(a: seq<bool>, b: seq<bool>): (c: seq<bool>)
    requires |a| == |b|
    ensures |c| == |a|
  {
    seq(|a|, i requires 0 <= i < |a| => a[i] != b[i])
  }

  lemma FeedBitLinear(r: bv32, q: bv32, b: bool, c: bool)
    ensures FeedBit(Xor(r, q), b != c) == Xor(FeedBit(r, b), FeedBit(q, c))
  {
    var x: bv32, y: bv32 := if b then 1 else 0, if c then 1 else 0;
    XorSwap(r, q, x, y);
    BitStepLinear(Xor(r, x), Xor(q, y));
  }

  lemma {:induction false} FeedBitsLinear(r: bv32, q: bv32, a: seq<bool>, b: seq<bool>)
    requires |a| == |b|
    ensures FeedBits(Xor(r, q), XorBool(a, b)) == Xor(FeedBits(r, a), FeedBits(q, b))
    decreases |a|
  {
    if a != [] {
      FeedBitLinear(r, q, a[0], b[0]);
      FeedBitsLinear(FeedBit(r, a[0]), FeedBit(q, b[0]), a[1..], b[1..]);
      assert XorBool(a, b)[1..] == XorBool(a[1..], b[1..]);
    }
  }

  lemma HalfByteLinear(a: bv8, b: bv8)
    ensures HalfByte(XorByte(a, b)) == XorByte(HalfByte(a), HalfByte(b))
    ensures OddByte(XorByte(a, b)) == (OddByte(a) != OddByte(b))
  {
  }

  lemma XorBoolConcat(a: seq<bool>, b: seq<bool>, a': seq<bool>, b': seq<bool>)
    requires |a| == |b| && |a'| == |b'|
    ensures XorBool(a + a', b + b') == XorBool(a, b) + XorBool(a', b')
  {
  }

  lemma XorBoolCons(p: bool, q: bool, a: seq<bool>, b: seq<bool>)
    requires |a| == |b|
    ensures XorBool([p] + a, [q] + b) == [p != q] + XorBool(a, b)
  {
    XorBoolConcat([p], [q], a, b);
  }

  lemma {:induction false} LowBitsLinear(a: bv8, b: bv8, n: nat)
    ensures LowBits(XorByte(a, b), n) == XorBool(LowBits(a, n), LowBits(b, n))
    decreases n
  {
    if n > 0 {
      HalfByteLinear(a, b);
      LowBitsLinear(HalfByte(a), HalfByte(b), n - 1);
      XorBoolCons(OddByte(a), OddByte(b), LowBits(HalfByte(a), n - 1), LowBits(HalfByte(b), n - 1));
    }
  }

  lemma {:induction false} BitsLinear(a: seq<bv8>, b: seq<bv8>)
    requires |a| == |b|
    ensures Bits(XorBytes(a, b)) == XorBool(Bits(a), Bits(b))
    decreases |a|
  {
    if a != [] {
      LowBitsLinear(a[0], b[0], 8);
      BitsLinear(a[1..], b[1..]);
      var c := XorBytes(a, b);
      assert c[1..] == XorBytes(a[1..], b[1..]);
      XorBoolConcat(LowBits(a[0], 8), LowBits(b[0], 8), Bits(a[1..]), Bits(b[1..]));
    }
  }

  lemma RegisterLinear(r: bv32, q: bv32, a: seq<bv8>, b: seq<bv8>)
    requires |a| == |b|
    ensures Register(Xor(r, q), XorBytes(a, b)) == Xor(Register(r, a), Register(q, b))
  {
    BitsLinear(a, b);
    FeedBitsLinear(r, q, Bits(a), Bits(b));
  }

  /** For equal-length strings the CRC of a ^ b ^ c is the exclusive or of the three CRCs. */
  lemma CrcAffine(a: seq<bv8>, b: seq<bv8>, c: seq<bv8>)
    requires |a| == |b| == |c|
    ensures Crc(XorBytes(XorBytes(a, b), c)) == Xor(Xor(Crc(a), Crc(b)), Crc(c))
  {
    var i := ALL_ONES;
    var x, y, z := Register(i, a), Register(i, b), Register(i, c);
    RegisterLinear(i, i, a, b);
    RegisterLinear(Xor(i, i), i, XorBytes(a, b), c);
    XorSelf(i);
    XorComm(0, i);
    XorSelf(Xor(x, y));
    XorSwap(x, i, y, i);
    XorAssoc(Xor(x, y), z, i);
  }

  // ----- burst errors -----

  predicate AtLeast(d: bv32, bound: bv32) { d >= bound }

  /** Halving the bound for the remaining bits of a burst never reaches zero too early. */
  predicate Room(bound: bv32, n: nat)
    decreases n
  {
    AtLeast(bound, 1) && if n == 0 then true else !Odd(bound) && Room(ShiftRight1(bound), n - 1)
  }

  lemma RoomFor31()
    ensures Room(0x80000000, 31)
  {
    assert Room(0x00000010, 4);
    assert Room(0x00000100, 8);
    assert Room(0x00001000, 12);
    assert Room(0x00010000, 16);
    assert Room(0x00100000, 20);
    assert Room(0x01000000, 24);
    assert Room(0x10000000, 28);
  }

  /** The set top bit of the polynomial keeps a difference from dying out. */
  lemma DifferenceSurvives(d: bv32, bound: bv32, flip: bool)
    requires AtLeast(d, bound) && AtLeast(bound, 1) && !Odd(bound)
    ensures AtLeast(FeedBit(d, flip), ShiftRight1(bound))
  {
  }

  lemma {:induction false} BurstKeepsDifference(r: bv32, q: bv32, a: seq<bool>, b: seq<bool>, bound: bv32)
    requires |a| == |b| && Room(bound, |a|) && AtLeast(Xor(r, q), bound)
    ensures FeedBits(r, a) != FeedBits(q, b)
    decreases |a|
  {
    if a == [] {
      XorSelf(r);
    } else {
      var r', q' := FeedBit(r, a[0]), FeedBit(q, b[0]);
      FeedBitLinear(r, q, a[0], b[0]);
      DifferenceSurvives(Xor(r, q), bound, a[0] != b[0]);
      BurstKeepsDifference(r', q', a[1..], b[1..], ShiftRight1(bound));
    }
  }

  lemma {:induction false} RoomForFewer(bound: bv32, m: nat, n: nat)
    requires m <= n && Room(bound, n)
    ensures Room(bound, m)
    decreases n
  {
    if m > 0 {
      RoomForFewer(ShiftRight1(bound), m - 1, n - 1);
    }
  }

  lemma FirstFlip(r: bv32, b: bool, c: bool)
    requires b != c
    ensures AtLeast(Xor(FeedBit(r, b), FeedBit(r, c)), 0x80000000)
  {
    FeedBitLinear(r, r, b, c);
    XorSelf(r);
    assert FeedBit(0, true) == POLYNOMIAL;
  }

  /** Once the first bits differ, 31 more cannot bring the registers together again. */
  lemma FirstFlipStays(r: bv32, a: seq<bool>, b: seq<bool>)
    requires 1 <= |a| == |b| <= 32 && a[0] != b[0]
    ensures FeedBits(r, a) != FeedBits(r, b)
  {
    FirstFlip(r, a[0], b[0]);
    RoomFor31();
    RoomForFewer(0x80000000, |a| - 1, 31);
    BurstKeepsDifference(FeedBit(r, a[0]), FeedBit(r, b[0]), a[1..], b[1..], 0x80000000);
  }

  /** From one register, two different strings of at most 32 bits lead to different registers. */
  lemma {:induction false} ShortStringsDiffer(r: bv32, a: seq<bool>, b: seq<bool>)
    requires |a| == |b| <= 32 && a != b
    ensures FeedBits(r, a) != FeedBits(r, b)
    decreases |a|
  {
    if a[0] == b[0] {
      assert a == [a[0]] + a[1..] && b == [b[0]] + b[1..];
      ShortStringsDiffer(FeedBit(r, a[0]), a[1..], b[1..]);
    } else {
      FirstFlipStays(r, a, b);
    }
  }

  lemma FeedBitInjective(r: bv32, q: bv32, b: bool)
    requires r != q
    ensures FeedBit(r, b) != FeedBit(q, b)
  {
    FeedBitLinear(r, q, b, b);
    XorSelf(FeedBit(r, b));
    XorZero(r, q);
    XorSelf(Xor(r, q));
    BitStepKernel(Xor(r, q));
  }

  lemma XorZero(r: bv32, q: bv32)
    ensures Xor(r, q) == 0 ==> r == q
  {
  }

  lemma BitStepKernel(d: bv32)
    ensures BitStep(d) == 0 ==> d == 0
  {
  }

  lemma {:induction false} CommonTail(r: bv32, q: bv32, bits: seq<bool>)
    requires r != q
    ensures FeedBits(r, bits) != FeedBits(q, bits)
    decreases |bits|
  {
    if bits != [] {
      FeedBitInjective(r, q, bits[0]);
      CommonTail(FeedBit(r, bits[0]), FeedBit(q, bits[0]), bits[1..]);
    }
  }

  /** x and y agree outside the n <= 32 bits that start at bit k. */
  predicate DifferWithin(x: seq<bool>, y: seq<bool>, k: nat, n: nat) {
    |x| == |y| && k + n <= |x| && n <= 32 && x[..k] == y[..k] && x[k + n..] == y[k + n..]
  }

  lemma BurstOfBits(r: bv32, x: seq<bool>, y: seq<bool>, k: nat, n: nat)
    requires DifferWithin(x, y, k, n) && x != y
    ensures FeedBits(r, x) != FeedBits(r, y)
  {
    var p, s, u, v := x[..k], x[k + n..], x[k..k + n], y[k..k + n];
    assert x == p + u + s && y == p + v + s;
    FeedConcat(r, p + u, s);
    FeedConcat(r, p + v, s);
    FeedConcat(r, p, u);
    FeedConcat(r, p, v);
    ShortStringsDiffer(FeedBits(r, p), u, v);
    CommonTail(FeedBits(r, p + u), FeedBits(r, p + v), s);
  }

  lemma {:induction false} LowBitsInjective(a: bv8, b: bv8, n: nat)
    requires LowBits(a, n) == LowBits(b, n) && Drop(a, n) == Drop(b, n)
    ensures a == b
    decreases n
  {
    if n > 0 {
      var x, y := LowBits(a, n), LowBits(b, n);
      assert x[0] == y[0];
      assert x[1..] == LowBits(HalfByte(a), n - 1) && y[1..] == LowBits(HalfByte(b), n - 1);
      LowBitsInjective(HalfByte(a), HalfByte(b), n - 1);
      ByteFromHalves(a, b);
    }
  }

  lemma ByteFromHalves(a: bv8, b: bv8)
    requires OddByte(a) == OddByte(b) && HalfByte(a) == HalfByte(b)
    ensures a == b
  {
  }

  lemma {:induction false} BitsInjective(x: seq<bv8>, y: seq<bv8>)
    requires |x| == |y| && Bits(x) == Bits(y)
    ensures x == y
    decreases |x|
  {
    if x != [] {
      assert LowBits(x[0], 8) == Bits(x)[..8] == Bits(y)[..8] == LowBits(y[0], 8);
      assert Bits(x[1..]) == Bits(x)[8..] == Bits(y)[8..] == Bits(y[1..]);
      DropByte(x[0]);
      DropByte(y[0]);
      LowBitsInjective(x[0], y[0], 8);
      BitsInjective(x[1..], y[1..]);
    }
  }

  /** Error detection: a nonempty change confined to at most 32 consecutive bits, at any bit
      position, changes the register and hence the CRC. */
  lemma BurstChangesRegister(r: bv32, x: seq<bv8>, y: seq<bv8>, k: nat, n: nat)
    requires x != y && |x| == |y| && DifferWithin(Bits(x), Bits(y), k, n)
    ensures Register(r, x) != Register(r, y)
  {
    if Bits(x) == Bits(y) {
      BitsInjective(x, y);
    }
    BurstOfBits(r, Bits(x), Bits(y), k, n);
  }

  lemma BitsSplit(x: seq<bv8>, w: nat)
    requires w <= |x|
    ensures Bits(x)[..8 * w] == Bits(x[..w]) && Bits(x)[8 * w..] == Bits(x[w..])
  {
    assert x == x[..w] + x[w..];
    BitsConcat(x[..w], x[w..]);
  }

  lemma BitsOfThree(x: seq<bv8>, w: nat, m: nat)
    requires w <= m <= |x|
    ensures Bits(x)[..8 * w] == Bits(x[..w]) && Bits(x)[8 * m..] == Bits(x[m..])
  {
    BitsSplit(x, w);
    BitsSplit(x, m);
  }

  /** Four consecutive bytes are 32 consecutive bits. */
  lemma FourBytesAreOneBurst(x: seq<bv8>, y: seq<bv8>, w: nat)
    requires |x| == |y| && w + 4 <= |x| && x[..w] == y[..w] && x[w + 4..] == y[w + 4..]
    ensures DifferWithin(Bits(x), Bits(y), 8 * w, 32)
  {
    BitsOfThree(x, w, w + 4);
    BitsOfThree(y, w, w + 4);
  }

  // ----- a message followed by its CRC -----

  /** Little-endian bytes of a 32-bit word. */
  function Le32(w: bv32): (bytes: seq<bv8>)
    ensures |bytes| == 4
  {
    [LowByte(w), LowByte(ShiftRight8(w)), LowByte(ShiftRight8(ShiftRight8(w))),
     LowByte(ShiftRight8(ShiftRight8(ShiftRight8(w))))]
  }

  function FromLe32(bytes: seq<bv8>): bv32
    requires |bytes| == 4
  {
    (bytes[0] as bv32) | ((bytes[1] as bv32) << 8) | ((bytes[2] as bv32) << 16) | ((bytes[3] as bv32) << 24)
  }

  lemma Le32RoundTrip(w: bv32)
    ensures FromLe32(Le32(w)) == w
  {
  }

  lemma Le32Inverse(bytes: seq<bv8>)
    requires |bytes| == 4
    ensures Le32(FromLe32(bytes)) == bytes
  {
  }

  const RESIDUE: bv32 := 0xDEBB20E3

  lemma RegisterOfFour(r: bv32, b: seq<bv8>)
    requires |b| == 4
    ensures Register(r, b) == ByteStep(ByteStep(ByteStep(ByteStep(r, b[0]), b[1]), b[2]), b[3])
  {
    var r1 := ByteStep(r, b[0]);
    var r2 := ByteStep(r1, b[1]);
    RegisterCons(r, b);
    RegisterCons(r1, b[1..]);
    RegisterCons(r2, b[2..]);
    RegisterCons(ByteStep(r2, b[2]), b[3..]);
    assert b[1..][1..] == b[2..] && b[2..][1..] == b[3..] && b[3..][1..] == [];
  }

  lemma OwnLowByte(r: bv32)
    ensures ByteStep(r, LowByte(r)) == ShiftRight8(r)
  {
    TableStepIsByteStep(r, LowByte(r));
    LowByteCancels(r);
    XorSelf(ShiftRight8(r));
  }

  lemma LowByteCancels(r: bv32)
    ensures LowByte(Xor(r, Widen(LowByte(r)))) == 0 && TableEntry(0) == 0
  {
  }

  lemma FourShifts(r: bv32)
    ensures ShiftRight8(ShiftRight8(ShiftRight8(ShiftRight8(r)))) == 0
  {
  }

  /** Feeding a register its own four bytes clears it. */
  lemma FeedOwnBytes(r: bv32)
    ensures Register(r, Le32(r)) == 0
  {
    var s1 := ShiftRight8(r);
    var s2 := ShiftRight8(s1);
    FourShifts(r);
    RegisterOfFour(r, Le32(r));
    OwnLowByte(r);
    OwnLowByte(s1);
    OwnLowByte(s2);
    OwnLowByte(ShiftRight8(s2));
  }

  lemma ResidueOfOnes()
    ensures Register(0, Le32(ALL_ONES)) == RESIDUE
  {
    assert Le32(ALL_ONES) == [0xFF, 0xFF, 0xFF, 0xFF];
    RegisterOfFour(0, [0xFF, 0xFF, 0xFF, 0xFF]);
    assert ByteStep(0, 0xFF) == 0x2D02EF8D;
    assert ByteStep(0x2D02EF8D, 0xFF) == 0xBE2612FF;
    assert ByteStep(0xBE2612FF, 0xFF) == 0x00BE2612;
    assert ByteStep(0x00BE2612, 0xFF) == RESIDUE;
  }

  lemma LowByteLinear(a: bv32, b: bv32)
    ensures LowByte(Xor(a, b)) == XorByte(LowByte(a), LowByte(b))
  {
  }

  lemma ShiftRight8Linear(a: bv32, b: bv32)
    ensures ShiftRight8(Xor(a, b)) == Xor(ShiftRight8(a), ShiftRight8(b))
  {
  }

  lemma XorBytesOfFour(p: bv8, q: bv8, r: bv8, s: bv8, p': bv8, q': bv8, r': bv8, s': bv8)
    ensures XorBytes([p, q, r, s], [p', q', r', s']) == [XorByte(p, p'), XorByte(q, q'), XorByte(r, r'), XorByte(s, s')]
  {
  }

  lemma Le32Linear(a: bv32, b: bv32)
    ensures Le32(Xor(a, b)) == XorBytes(Le32(a), Le32(b))
  {
    var a1, b1 := ShiftRight8(a), ShiftRight8(b);
    var a2, b2 := ShiftRight8(a1), ShiftRight8(b1);
    ShiftRight8Linear(a, b);
    ShiftRight8Linear(a1, b1);
    ShiftRight8Linear(a2, b2);
    LowByteLinear(a, b);
    LowByteLinear(a1, b1);
    LowByteLinear(a2, b2);
    LowByteLinear(ShiftRight8(a2), ShiftRight8(b2));
    XorBytesOfFour(LowByte(a), LowByte(a1), LowByte(a2), LowByte(ShiftRight8(a2)),
                   LowByte(b), LowByte(b1), LowByte(b2), LowByte(ShiftRight8(b2)));
  }

  lemma GoodTrailer(r: bv32)
    ensures Register(r, Le32(Xor(r, ALL_ONES))) == RESIDUE
  {
    FeedOwnBytes(r);
    ResidueOfOnes();
    Le32Linear(r, ALL_ONES);
    RegisterLinear(r, 0, Le32(r), Le32(ALL_ONES));
    XorSelf(r);
    XorComm(0, RESIDUE);
    XorSelf(RESIDUE);
  }

  /** Two different words never take one register to the same place. */
  lemma TrailerUnique(r: bv32, a: bv32, b: bv32)
    requires a != b
    ensures Register(r, Le32(a)) != Register(r, Le32(b))
  {
    Le32RoundTrip(a);
    Le32RoundTrip(b);
    FourBytesAreOneBurst(Le32(a), Le32(b), 0);
    BurstChangesRegister(r, Le32(a), Le32(b), 0, 32);
  }

  /** A four-byte trailer completes a message to the fixed residue exactly when it is the
      little-endian CRC of the message. */
  lemma ResidueIffCrc(data: seq<bv8>, trailer: bv32)
    ensures Register(ALL_ONES, data + Le32(trailer)) == RESIDUE <==> trailer == Crc(data)
  {
    var r := Register(ALL_ONES, data);
    RegisterConcat(ALL_ONES, data, Le32(trailer));
    GoodTrailer(r);
    if trailer != Crc(data) {
      TrailerUnique(r, trailer, Crc(data));
    }
  }

  lemma CheckFirst()
    ensures Register(ALL_ONES, [0x31, 0x32, 0x33, 0x34]) == 0x641C1F5C
  {
    RegisterOfFour(ALL_ONES, [0x31, 0x32, 0x33, 0x34]);
    assert ByteStep(0xFFFFFFFF, 0x31) == 0x7C231048;
    assert ByteStep(0x7C231048, 0x32) == 0xB0ACBB32;
    assert ByteStep(0xB0ACBB32, 0x33) == 0x77B79C2D;
    assert ByteStep(0x77B79C2D, 0x34) == 0x641C1F5C;
  }

  lemma CheckSecond()
    ensures Register(0x641C1F5C, [0x35, 0x36, 0x37, 0x38]) == 0x651F2550
  {
    RegisterOfFour(0x641C1F5C, [0x35, 0x36, 0x37, 0x38]);
    assert ByteStep(0x641C1F5C, 0x35) == 0x340AC5E3;
    assert ByteStep(0x340AC5E3, 0x36) == 0xF68D2C9E;
    assert ByteStep(0xF68D2C9E, 0x37) == 0xAFFC9660;
    assert ByteStep(0xAFFC9660, 0x38) == 0x651F2550;
  }

  lemma CheckLast()
    ensures Register(0x651F2550, [0x39]) == 0x340BC6D9
  {
    RegisterCons(0x651F2550, [0x39]);
    assert ByteStep(0x651F2550, 0x39) == 0x340BC6D9;
  }

  lemma CheckInverted()
    ensures Xor(0x340BC6D9, ALL_ONES) == 0xCBF43926
  {
  }

  lemma NineDigits(first: seq<bv8>, second: seq<bv8>, last: seq<bv8>)
    requires Register(ALL_ONES, first) == 0x641C1F5C && Register(0x641C1F5C, second) == 0x651F2550
    requires Register(0x651F2550, last) == 0x340BC6D9
    ensures Crc(first + second + last) == 0xCBF43926
  {
    RegisterConcat(ALL_ONES, first + second, last);
    RegisterConcat(ALL_ONES, first, second);
    CheckInverted();
  }

  /** The check value of CRC-32/ISO-HDLC: the CRC of the nine characters "123456789". */
  lemma CheckValue()
    ensures Crc([0x31, 0x32, 0x33, 0x34] + [0x35, 0x36, 0x37, 0x38] + [0x39]) == 0xCBF43926
  {
    CheckFirst();
    CheckSecond();
    CheckLast();
    NineDigits([0x31, 0x32, 0x33, 0x34], [0x35, 0x36, 0x37, 0x38], [0x39]);
  }
}
