/**
 The hash of UI labels. Its table-driven loop is compared with the definition of CRC-32 in
 section 8 of RFC 1952, one bit at a time, and its restart at "###" with hashing a suffix.
 */
module LabelHash {

  type Text = seq<bv8>

  const HASH: bv8 := 0x23

  // ---------------------------------------------------------------- reference

  // The operators have names of their own, so that a proof can treat them as opaque.

  function Xor(x: bv32, y: bv32): bv32 { x ^ y }

  function Not(x: bv32): bv32 { !x }

  function Half(x: bv32): bv32 { x >> 1 }

  predicate Even(x: bv32) { x & 1 == 0 }

  /** One bit of the reflected CRC-32, polynomial 0xEDB88320. */
  function Bit(c: bv32): bv32 {
    if Even(c) then Half(c) else Xor(Half(c), 0xEDB88320)
  }

  function EightBits(c: bv32): bv32 {
    Bit(Bit(Bit(Bit(Bit(Bit(Bit(Bit(c))))))))
  }

  /** The CRC register after the bytes of `s`, one bit at a time. */
  function Register(start: bv32, s: Text): bv32 {
    if s == [] then start
    else EightBits(Xor(Register(start, s[..|s| - 1]), s[|s| - 1] as bv32))
  }

  /** CRC-32 of `s` continued from the checksum `seed`: 0 for a fresh one. */
  function Crc32(s: Text, seed: bv32): bv32 {
    Not(Register(Not(seed), s))
  }

  /** "###" stands at `i`. */
  predicate MarkAt(s: Text, i: nat) {
    i + 2 < |s| && s[i] == HASH && s[i + 1] == HASH && s[i + 2] == HASH
  }

  /** Where the last "###" stands, or the start of the text if there is none. */
  function LastMark(s: Text, below: nat): (i: nat)
    requires below <= |s|
    ensures i <= below
    ensures i == 0 || (i < below && MarkAt(s, i))
    ensures forall k :: i < k < below ==> !MarkAt(s, k)
  {
    if below == 0 then 0
    else if MarkAt(s, below - 1) then below - 1
    else LastMark(s, below - 1)
  }

  /** The part of a label that its hash depends on. */
  function Significant(s: Text): Text {
    s[LastMark(s, |s|)..]
  }

  // -------------------------------------------------------------------- table

  function Row0(lo: bv8): (entry: bv32)
    ensures lo < 16 ==> entry == EightBits((0x00 | lo) as bv32)
  {
    match lo
    case 0 => 0x00000000 case 1 => 0x77073096 case 2 => 0xEE0E612C case 3 => 0x990951BA
    case 4 => 0x076DC419 case 5 => 0x706AF48F case 6 => 0xE963A535 case 7 => 0x9E6495A3
    case 8 => 0x0EDB8832 case 9 => 0x79DCB8A4 case 10 => 0xE0D5E91E case 11 => 0x97D2D988
    case 12 => 0x09B64C2B case 13 => 0x7EB17CBD case 14 => 0xE7B82D07 case _ => 0x90BF1D91
  }

  function Row1(lo: bv8): (entry: bv32)
    ensures lo < 16 ==> entry == EightBits((0x10 | lo) as bv32)
  {
    match lo
    case 0 => 0x1DB71064 case 1 => 0x6AB020F2 case 2 => 0xF3B97148 case 3 => 0x84BE41DE
    case 4 => 0x1ADAD47D case 5 => 0x6DDDE4EB case 6 => 0xF4D4B551 case 7 => 0x83D385C7
    case 8 => 0x136C9856 case 9 => 0x646BA8C0 case 10 => 0xFD62F97A case 11 => 0x8A65C9EC
    case 12 => 0x14015C4F case 13 => 0x63066CD9 case 14 => 0xFA0F3D63 case _ => 0x8D080DF5
  }

  function Row2(lo: bv8): (entry: bv32)
    ensures lo < 16 ==> entry == EightBits((0x20 | lo) as bv32)
  {
    match lo
    case 0 => 0x3B6E20C8 case 1 => 0x4C69105E case 2 => 0xD56041E4 case 3 => 0xA2677172
    case 4 => 0x3C03E4D1 case 5 => 0x4B04D447 case 6 => 0xD20D85FD case 7 => 0xA50AB56B
    case 8 => 0x35B5A8FA case 9 => 0x42B2986C case 10 => 0xDBBBC9D6 case 11 => 0xACBCF940
    case 12 => 0x32D86CE3 case 13 => 0x45DF5C75 case 14 => 0xDCD60DCF case _ => 0xABD13D59
  }

  function Row3(lo: bv8): (entry: bv32)
    ensures lo < 16 ==> entry == EightBits((0x30 | lo) as bv32)
  {
    match lo
    case 0 => 0x26D930AC case 1 => 0x51DE003A case 2 => 0xC8D75180 case 3 => 0xBFD06116
    case 4 => 0x21B4F4B5 case 5 => 0x56B3C423 case 6 => 0xCFBA9599 case 7 => 0xB8BDA50F
    case 8 => 0x2802B89E case 9 => 0x5F058808 case 10 => 0xC60CD9B2 case 11 => 0xB10BE924
    case 12 => 0x2F6F7C87 case 13 => 0x58684C11 case 14 => 0xC1611DAB case _ => 0xB6662D3D
  }

  function Row4(lo: bv8): (entry: bv32)
    ensures lo < 16 ==> entry == EightBits((0x40 | lo) as bv32)
  {
    match lo
    case 0 => 0x76DC4190 case 1 => 0x01DB7106 case 2 => 0x98D220BC case 3 => 0xEFD5102A
    case 4 => 0x71B18589 case 5 => 0x06B6B51F case 6 => 0x9FBFE4A5 case 7 => 0xE8B8D433
    case 8 => 0x7807C9A2 case 9 => 0x0F00F934 case 10 => 0x9609A88E case 11 => 0xE10E9818
    case 12 => 0x7F6A0DBB case 13 => 0x086D3D2D case 14 => 0x91646C97 case _ => 0xE6635C01
  }

  function Row5(lo: bv8): (entry: bv32)
    ensures lo < 16 ==> entry == EightBits((0x50 | lo) as bv32)
  {
    match lo
    case 0 => 0x6B6B51F4 case 1 => 0x1C6C6162 case 2 => 0x856530D8 case 3 => 0xF262004E
    case 4 => 0x6C0695ED case 5 => 0x1B01A57B case 6 => 0x8208F4C1 case 7 => 0xF50FC457
    case 8 => 0x65B0D9C6 case 9 => 0x12B7E950 case 10 => 0x8BBEB8EA case 11 => 0xFCB9887C
    case 12 => 0x62DD1DDF case 13 => 0x15DA2D49 case 14 => 0x8CD37CF3 case _ => 0xFBD44C65
  }

  function Row6(lo: bv8): (entry: bv32)
    ensures lo < 16 ==> entry == EightBits((0x60 | lo) as bv32)
  {
    match lo
    case 0 => 0x4DB26158 case 1 => 0x3AB551CE case 2 => 0xA3BC0074 case 3 => 0xD4BB30E2
    case 4 => 0x4ADFA541 case 5 => 0x3DD895D7 case 6 => 0xA4D1C46D case 7 => 0xD3D6F4FB
    case 8 => 0x4369E96A case 9 => 0x346ED9FC case 10 => 0xAD678846 case 11 => 0xDA60B8D0
    case 12 => 0x44042D73 case 13 => 0x33031DE5 case 14 => 0xAA0A4C5F case _ => 0xDD0D7CC9
  }

  function Row7(lo: bv8): (entry: bv32)
    ensures lo < 16 ==> entry == EightBits((0x70 | lo) as bv32)
  {
    match lo
    case 0 => 0x5005713C case 1 => 0x270241AA case 2 => 0xBE0B1010 case 3 => 0xC90C2086
    case 4 => 0x5768B525 case 5 => 0x206F85B3 case 6 => 0xB966D409 case 7 => 0xCE61E49F
    case 8 => 0x5EDEF90E case 9 => 0x29D9C998 case 10 => 0xB0D09822 case 11 => 0xC7D7A8B4
    case 12 => 0x59B33D17 case 13 => 0x2EB40D81 case 14 => 0xB7BD5C3B case _ => 0xC0BA6CAD
  }

  function Row8(lo: bv8): (entry: bv32)
    ensures lo < 16 ==> entry == EightBits((0x80 | lo) as bv32)
  {
    match lo
    case 0 => 0xEDB88320 case 1 => 0x9ABFB3B6 case 2 => 0x03B6E20C case 3 => 0x74B1D29A
    case 4 => 0xEAD54739 case 5 => 0x9DD277AF case 6 => 0x04DB2615 case 7 => 0x73DC1683
    case 8 => 0xE3630B12 case 9 => 0x94643B84 case 10 => 0x0D6D6A3E case 11 => 0x7A6A5AA8
    case 12 => 0xE40ECF0B case 13 => 0x9309FF9D case 14 => 0x0A00AE27 case _ => 0x7D079EB1
  }

  function Row9(lo: bv8): (entry: bv32)
    ensures lo < 16 ==> entry == EightBits((0x90 | lo) as bv32)
  {
    match lo
    case 0 => 0xF00F9344 case 1 => 0x8708A3D2 case 2 => 0x1E01F268 case 3 => 0x6906C2FE
    case 4 => 0xF762575D case 5 => 0x806567CB case 6 => 0x196C3671 case 7 => 0x6E6B06E7
    case 8 => 0xFED41B76 case 9 => 0x89D32BE0 case 10 => 0x10DA7A5A case 11 => 0x67DD4ACC
    case 12 => 0xF9B9DF6F case 13 => 0x8EBEEFF9 case 14 => 0x17B7BE43 case _ => 0x60B08ED5
  }

  function RowA(lo: bv8): (entry: bv32)
    ensures lo < 16 ==> entry == EightBits((0xA0 | lo) as bv32)
  {
    match lo
    case 0 => 0xD6D6A3E8 case 1 => 0xA1D1937E case 2 => 0x38D8C2C4 case 3 => 0x4FDFF252
    case 4 => 0xD1BB67F1 case 5 => 0xA6BC5767 case 6 => 0x3FB506DD case 7 => 0x48B2364B
    case 8 => 0xD80D2BDA case 9 => 0xAF0A1B4C case 10 => 0x36034AF6 case 11 => 0x41047A60
    case 12 => 0xDF60EFC3 case 13 => 0xA867DF55 case 14 => 0x316E8EEF case _ => 0x4669BE79
  }

  function RowB(lo: bv8): (entry: bv32)
    ensures lo < 16 ==> entry == EightBits((0xB0 | lo) as bv32)
  {
    match lo
    case 0 => 0xCB61B38C case 1 => 0xBC66831A case 2 => 0x256FD2A0 case 3 => 0x5268E236
    case 4 => 0xCC0C7795 case 5 => 0xBB0B4703 case 6 => 0x220216B9 case 7 => 0x5505262F
    case 8 => 0xC5BA3BBE case 9 => 0xB2BD0B28 case 10 => 0x2BB45A92 case 11 => 0x5CB36A04
    case 12 => 0xC2D7FFA7 case 13 => 0xB5D0CF31 case 14 => 0x2CD99E8B case _ => 0x5BDEAE1D
  }

  function RowC(lo: bv8): (entry: bv32)
    ensures lo < 16 ==> entry == EightBits((0xC0 | lo) as bv32)
  {
    match lo
    case 0 => 0x9B64C2B0 case 1 => 0xEC63F226 case 2 => 0x756AA39C case 3 => 0x026D930A
    case 4 => 0x9C0906A9 case 5 => 0xEB0E363F case 6 => 0x72076785 case 7 => 0x05005713
    case 8 => 0x95BF4A82 case 9 => 0xE2B87A14 case 10 => 0x7BB12BAE case 11 => 0x0CB61B38
    case 12 => 0x92D28E9B case 13 => 0xE5D5BE0D case 14 => 0x7CDCEFB7 case _ => 0x0BDBDF21
  }

  function RowD(lo: bv8): (entry: bv32)
    ensures lo < 16 ==> entry == EightBits((0xD0 | lo) as bv32)
  {
    match lo
    case 0 => 0x86D3D2D4 case 1 => 0xF1D4E242 case 2 => 0x68DDB3F8 case 3 => 0x1FDA836E
    case 4 => 0x81BE16CD case 5 => 0xF6B9265B case 6 => 0x6FB077E1 case 7 => 0x18B74777
    case 8 => 0x88085AE6 case 9 => 0xFF0F6A70 case 10 => 0x66063BCA case 11 => 0x11010B5C
    case 12 => 0x8F659EFF case 13 => 0xF862AE69 case 14 => 0x616BFFD3 case _ => 0x166CCF45
  }

  function RowE(lo: bv8): (entry: bv32)
    ensures lo < 16 ==> entry == EightBits((0xE0 | lo) as bv32)
  {
    match lo
    case 0 => 0xA00AE278 case 1 => 0xD70DD2EE case 2 => 0x4E048354 case 3 => 0x3903B3C2
    case 4 => 0xA7672661 case 5 => 0xD06016F7 case 6 => 0x4969474D case 7 => 0x3E6E77DB
    case 8 => 0xAED16A4A case 9 => 0xD9D65ADC case 10 => 0x40DF0B66 case 11 => 0x37D83BF0
    case 12 => 0xA9BCAE53 case 13 => 0xDEBB9EC5 case 14 => 0x47B2CF7F case _ => 0x30B5FFE9
  }

  function RowF(lo: bv8): (entry: bv32)
    ensures lo < 16 ==> entry == EightBits((0xF0 | lo) as bv32)
  {
    match lo
    case 0 => 0xBDBDF21C case 1 => 0xCABAC28A case 2 => 0x53B39330 case 3 => 0x24B4A3A6
    case 4 => 0xBAD03605 case 5 => 0xCDD70693 case 6 => 0x54DE5729 case 7 => 0x23D967BF
    case 8 => 0xB3667A2E case 9 => 0xC4614AB8 case 10 => 0x5D681B02 case 11 => 0x2A6F2B94
    case 12 => 0xB40BBE37 case 13 => 0xC30C8EA1 case 14 => 0x5A05DF1B case _ => 0x2D02EF8D
  }

  /** The lookup table, sixteen entries a row: every entry is eight bit steps of its index. */
  function Table(i: bv8): (entry: bv32)
    ensures entry == EightBits(i as bv32)
  {
    var lo := i & 0x0F;
    match i >> 4
    case 0 => Row0(lo)
    case 1 => Row1(lo)
    case 2 => Row2(lo)
    case 3 => Row3(lo)
    case 4 => Row4(lo)
    case 5 => Row5(lo)
    case 6 => Row6(lo)
    case 7 => Row7(lo)
    case 8 => Row8(lo)
    case 9 => Row9(lo)
    case 10 => RowA(lo)
    case 11 => RowB(lo)
    case 12 => RowC(lo)
    case 13 => RowD(lo)
    case 14 => RowE(lo)
    case _ => RowF(lo)
  }

  /** One byte of the table-driven loop. */
  function TableStep(crc: bv32, c: bv8): bv32 {
    Xor(crc >> 8, Table((crc & 0xFF) as bv8 ^ c))
  }

  lemma EvenXor(x: bv32, y: bv32)
    requires Even(y)
    ensures Even(Xor(x, y)) == Even(x)
  {
  }

  lemma HalfXor(x: bv32, y: bv32)
    ensures Half(Xor(x, y)) == Xor(Half(x), Half(y))
  {
  }

  lemma XorSwap(x: bv32, y: bv32, z: bv32)
    ensures Xor(Xor(x, y), z) == Xor(Xor(x, z), y)
  {
    assert (x ^ y) ^ z == (x ^ z) ^ y;
  }

  lemma XorCommutes(x: bv32, y: bv32)
    ensures Xor(x, y) == Xor(y, x)
  {
  }

  /** Bits above the lowest pass through a step unchanged: a step is linear in them. */
  lemma BitSplits(x: bv32, y: bv32)
    requires Even(y)
    ensures Bit(Xor(x, y)) == Xor(Bit(x), Half(y))
  {
    hide Xor, Half, Even;
    EvenXor(x, y);
    HalfXor(x, y);
    XorSwap(Half(x), Half(y), 0xEDB88320);
  }

  function FourHalves(y: bv32): bv32 {
    Half(Half(Half(Half(y))))
  }

  predicate FourEven(y: bv32) {
    Even(y) && Even(Half(y)) && Even(Half(Half(y))) && Even(Half(Half(Half(y))))
  }

  /** Eight steps on a register are eight steps on its low byte and a shift of the rest. */
  lemma EightBitsSplit(x: bv32, y: bv32)
    requires FourEven(y) && FourEven(FourHalves(y))
    ensures EightBits(Xor(x, y)) == Xor(EightBits(x), FourHalves(FourHalves(y)))
  {
    hide Xor, Half, Even, Bit;
    var x4, y4 := Bit(Bit(Bit(Bit(x)))), FourHalves(y);
    BitSplits(x, y);
    BitSplits(Bit(x), Half(y));
    BitSplits(Bit(Bit(x)), Half(Half(y)));
    BitSplits(Bit(Bit(Bit(x))), Half(Half(Half(y))));
    BitSplits(x4, y4);
    BitSplits(Bit(x4), Half(y4));
    BitSplits(Bit(Bit(x4)), Half(Half(y4)));
    BitSplits(Bit(Bit(Bit(x4))), Half(Half(Half(y4))));
  }

  lemma TableStepIsEightBits(crc: bv32, c: bv8)
    ensures TableStep(crc, c) == EightBits(Xor(crc, c as bv32))
  {
    hide EightBits, Xor, FourHalves, FourEven;
    var i, high := (crc & 0xFF) as bv8 ^ c, crc & 0xFFFFFF00;
    HighBytes(crc);
    LowByte(crc, c);
    EightBitsSplit(i as bv32, high);
    XorCommutes(crc >> 8, Table(i));
  }

  lemma LowByte(crc: bv32, c: bv8)
    ensures Xor(((crc & 0xFF) as bv8 ^ c) as bv32, crc & 0xFFFFFF00) == Xor(crc, c as bv32)
  {
  }

  lemma HighBytes(crc: bv32)
    ensures var high := crc & 0xFFFFFF00;
            FourEven(high) && FourEven(FourHalves(high)) && FourHalves(FourHalves(high)) == crc >> 8
  {
  }

  // ------------------------------------------------------------------ program

  /** The text a call hashes: a given number of bytes, or up to the NUL when that number is zero. */
  function Hashed(data: Text, size: nat): Text
    requires size <= |data| && (size == 0 ==> 0 in data)
  {
    if size != 0 then data[..size] else data[..FirstNul(data)]
  }

  function FirstNul(data: Text): (n: nat)
    requires 0 in data
    ensures n < |data| && data[n] == 0 && forall k :: 0 <= k < n ==> data[k] != 0
  {
    if data[0] == 0 then 0 else 1 + FirstNul(data[1..])
  }

  lemma RegisterSnoc(start: bv32, s: Text, from: nat, i: nat)
    requires from <= i < |s|
    ensures Register(start, s[from..i + 1]) == TableStep(Register(start, s[from..i]), s[i])
  {
    hide TableStep, EightBits;
    assert s[from..i + 1][..i - from] == s[from..i];
    TableStepIsEightBits(Register(start, s[from..i]), s[i]);
  }

  /** One byte of the loop: restart at a mark, then step. */
  lemma RestartAndStep(start: bv32, s: Text, i: nat)
    requires i < |s|
    ensures var crc := if MarkAt(s, i) then start else Register(start, s[LastMark(s, i)..i]);
            TableStep(crc, s[i]) == Register(start, s[LastMark(s, i + 1)..i + 1])
  {
    hide TableStep;
    if MarkAt(s, i) {
      assert s[i..i] == [];
    }
    RegisterSnoc(start, s, LastMark(s, i + 1), i);
  }

  /** The loop for a text of known length. */
  method HashSized(data: Text, size: nat, seed: bv32) returns (crc: bv32)
    requires size <= |data|
    ensures crc == Register(seed, Significant(data[..size]))
  {
    hide TableStep, Register;
    ghost var text := data[..size];
    var i: nat, left := 0, size;
    crc := seed;
    RegisterOfNothing(seed);
    while left != 0
      invariant i + left == size
      invariant crc == Register(seed, text[LastMark(text, i)..i])
    {
      left := left - 1;
      var c := data[i];
      RestartAndStep(seed, text, i);
      i := i + 1;
      if c == HASH && left >= 2 && data[i] == HASH && data[i + 1] == HASH {
        crc := seed;
      }
      crc := TableStep(crc, c);
    }
    assert text[LastMark(text, i)..i] == Significant(text);
  }

  /** The loop for a text that ends at its first NUL. */
  method HashTerminated(data: Text, seed: bv32) returns (crc: bv32)
    requires 0 in data
    ensures crc == Register(seed, Significant(data[..FirstNul(data)]))
  {
    hide TableStep, Register, FirstNul;
    ghost var text := data[..FirstNul(data)];
    var i: nat := 0;
    crc := seed;
    RegisterOfNothing(seed);
    while data[i] != 0
      invariant i <= |text|
      invariant crc == Register(seed, text[LastMark(text, i)..i])
      decreases |text| - i
    {
      var c := data[i];
      RestartAndStep(seed, text, i);
      i := i + 1;
      if c == HASH && data[i] == HASH && data[i + 1] == HASH {
        crc := seed;
      }
      crc := TableStep(crc, c);
    }
    assert text[LastMark(text, i)..i] == Significant(text);
  }

  /** Hashing a label is the CRC-32 of its part from the last "###" on. */
  method HashStr(data: Text, size: nat, seed: bv32) returns (hash: bv32)
    requires size <= |data| && (size == 0 ==> 0 in data)
    ensures hash == Crc32(Significant(Hashed(data, size)), seed)
  {
    var crc;
    if size != 0 {
      crc := HashSized(data, size, !seed);
    } else {
      crc := HashTerminated(data, !seed);
    }
    hash := !crc;
  }

  lemma RegisterOfNothing(start: bv32)
    ensures Register(start, []) == start
  {
  }

  // --------------------------------------------------------- known CRC-32 values

  /** The four bytes of a checksum, the lowest first. */
  function LowFirst(crc: bv32): (b: Text)
    ensures |b| == 4
  {
    [(crc & 0xFF) as bv8, ((crc >> 8) & 0xFF) as bv8, ((crc >> 16) & 0xFF) as bv8, ((crc >> 24) & 0xFF) as bv8]
  }

  lemma RegisterFour(start: bv32, s: Text, b: Text)
    requires |b| == 4
    ensures Register(start, s + b) ==
            TableStep(TableStep(TableStep(TableStep(Register(start, s), b[0]), b[1]), b[2]), b[3])
  {
    hide *;
    var t, n := s + b, |s|;
    RegisterSnoc(start, t, 0, n);
    RegisterSnoc(start, t, 0, n + 1);
    RegisterSnoc(start, t, 0, n + 2);
    RegisterSnoc(start, t, 0, n + 3);
    assert t[0..n] == s && t[0..n + 4] == t;
  }

  /** A text with its own checksum behind it has the same checksum whatever the text: the CRC-32 residue. */
  lemma Residue(s: Text)
    ensures Crc32(s + LowFirst(Crc32(s, 0)), 0) == 0x2144DF1C
  {
    hide *;
    FreshCrc(s);
    FreshCrc(s + LowFirst(Crc32(s, 0)));
    EndsInResidue(s);
    ResidueIs();
  }

  lemma EndsInResidue(s: Text)
    ensures Register(0xFFFFFFFF, s + LowFirst(Not(Register(0xFFFFFFFF, s)))) == 0xDEBB20E3
  {
    hide *;
    var r := Register(0xFFFFFFFF, s);
    RegisterFour(0xFFFFFFFF, s, LowFirst(Not(r)));
    FourSteps(r);
  }

  lemma ResidueIs()
    ensures Not(0xDEBB20E3) == 0x2144DF1C
  {
  }

  lemma FreshCrc(s: Text)
    ensures Crc32(s, 0) == Not(Register(0xFFFFFFFF, s))
  {
    hide Register, Not;
    NotZero();
  }

  lemma NotZero()
    ensures Not(0) == 0xFFFFFFFF
  {
  }

  /** Stepping on the complement of the register, byte by byte, shifts the register out. */
  lemma FourSteps(r: bv32)
    ensures var b := LowFirst(Not(r));
            TableStep(TableStep(TableStep(TableStep(r, b[0]), b[1]), b[2]), b[3]) == 0xDEBB20E3
  {
    FirstStep(r);
    SecondStep(r);
    ThirdStep(r);
    FourthStep(r);
  }

  lemma TableEntries()
    ensures Table(0xFF) == 0x2D02EF8D && Table(0x72) == 0xBE0B1010 && Table(0x00) == 0 && Table(0xED) == 0xDEBB9EC5
  {
    hide EightBits;
  }

  lemma FirstStep(r: bv32)
    ensures TableStep(r, LowFirst(!r)[0]) == (r >> 8) ^ 0x2D02EF8D
  {
    hide EightBits, Table;
    TableEntries();
    var x := r;
    assert (x & 0xFF) as bv8 ^ LowFirst(!r)[0] == 0xFF;
    assert (x >> 8) ^ 0x2D02EF8D == (r >> 8) ^ 0x2D02EF8D;
  }

  lemma SecondStep(r: bv32)
    ensures TableStep((r >> 8) ^ 0x2D02EF8D, LowFirst(!r)[1]) == (r >> 16) ^ 0xBE2612FF
  {
    hide EightBits, Table;
    TableEntries();
    SecondByte(r);
    SecondShift(r);
  }

  lemma SecondByte(r: bv32)
    ensures (((r >> 8) ^ 0x2D02EF8D) & 0xFF) as bv8 ^ ((!r >> 8) & 0xFF) as bv8 == 0x72
  {
  }

  lemma SecondShift(r: bv32)
    ensures (((r >> 8) ^ 0x2D02EF8D) >> 8) ^ 0xBE0B1010 == (r >> 16) ^ 0xBE2612FF
  {
  }

  lemma ThirdStep(r: bv32)
    ensures TableStep((r >> 16) ^ 0xBE2612FF, LowFirst(!r)[2]) == (r >> 24) ^ 0x00BE2612
  {
    hide EightBits, Table;
    TableEntries();
    var x := (r >> 16) ^ 0xBE2612FF;
    assert (x & 0xFF) as bv8 ^ LowFirst(!r)[2] == 0x00;
    assert (x >> 8) ^ 0x00000000 == (r >> 24) ^ 0x00BE2612;
  }

  lemma FourthStep(r: bv32)
    ensures TableStep((r >> 24) ^ 0x00BE2612, LowFirst(!r)[3]) == 0xDEBB20E3
  {
    hide EightBits, Table;
    TableEntries();
    var x := (r >> 24) ^ 0x00BE2612;
    assert (x & 0xFF) as bv8 ^ LowFirst(!r)[3] == 0xED;
    assert (x >> 8) ^ 0xDEBB9EC5 == 0xDEBB20E3;
  }

  // --------------------------------------------------------------- sanitising

  const SALT: Text := [HASH, HASH, HASH, 0x73, 0x6F, 0x6D, 0x65, 0x73, 0x61, 0x6C, 0x74]
  const DOOT: Text := [0x64, 0x6F, 0x6F, 0x74]

  function Decimal(n: nat): (digits: Text)
    ensures HASH !in digits
  {
    if n < 10 then [(48 + n) as bv8] else Decimal(n / 10) + [(48 + n % 10) as bv8]
  }

  /** The number that decimal digits stand for. */
  function ReadBack(digits: Text): nat
    requires forall i :: 0 <= i < |digits| ==> 48 <= digits[i] <= 57
  {
    if digits == [] then 0
    else 10 * ReadBack(digits[..|digits| - 1]) + (digits[|digits| - 1] - 48) as nat
  }

  /** The decimal consists of digits, has no needless zero in front, and reads back as the number. */
  lemma {:induction false} DecimalReadsBack(n: nat)
    ensures var d := Decimal(n);
            && d != [] && (forall i :: 0 <= i < |d| ==> 48 <= d[i] <= 57)
            && ReadBack(d) == n && (d[0] == 48 ==> n == 0)
  {
    if n >= 10 {
      DecimalReadsBack(n / 10);
      var d := Decimal(n);
      assert d[..|d| - 1] == Decimal(n / 10);
      DigitBack(n % 10);
    } else {
      assert Decimal(n)[..0] == [];
      DigitBack(n);
    }
  }

  lemma DigitBack(k: nat)
    requires k < 10
    ensures var c := (48 + k) as bv8; 48 <= c <= 57 && (c - 48) as nat == k
  {
  }

  function Tail(hash: bv32): Text {
    SALT + Decimal(hash as nat) + DOOT
  }

  /** The hash the client gives a whole label. */
  function LabelHash(s: Text): bv32 {
    Crc32(Significant(s), 0)
  }

  function Sanitised(s: Text): Text {
    s + Tail(LabelHash(s))
  }

  method SanitiseValue(s: Text) returns (r: Text)
    ensures r == Sanitised(s)
  {
    hide Crc32, LastMark;
    var hash := HashStr(s + [0], |s|, 0);
    assert Hashed(s + [0], |s|) == s by {
      if s == [] {
        assert FirstNul(s + [0]) == 0;
      }
    }
    r := s + Tail(hash);
  }

  lemma LastMarkIs(s: Text, i: nat)
    requires i <= |s| && (i == 0 || (i < |s| && MarkAt(s, i)))
    requires forall k :: i < k < |s| ==> !MarkAt(s, k)
    ensures LastMark(s, |s|) == i
  {
  }

  /** Without a "###" the hash is plain CRC-32. */
  lemma UnmarkedLabel(s: Text)
    requires forall k :: 0 <= k < |s| ==> !MarkAt(s, k)
    ensures LabelHash(s) == Crc32(s, 0)
  {
    hide Crc32, LastMark;
    assert LastMark(s, |s|) == 0;
    assert s[0..] == s;
  }

  /** Whatever stands before the last "###" does not matter. */
  lemma PrefixDoesNotMatter(before: Text, other: Text, after: Text)
    requires MarkAt(after, 0) && forall k :: 0 < k < |after| ==> !MarkAt(after, k)
    ensures Significant(before + after) == after
    ensures LabelHash(before + after) == LabelHash(other + after)
  {
    hide Crc32;
    SignificantPart(before, after);
    SignificantPart(other, after);
  }

  lemma SignificantPart(before: Text, after: Text)
    requires MarkAt(after, 0) && forall k :: 0 < k < |after| ==> !MarkAt(after, k)
    ensures Significant(before + after) == after
  {
    var s, n := before + after, |before|;
    forall k | n <= k < |s|
      ensures MarkAt(s, k) == MarkAt(after, k - n)
    {
      assert s[k..] == after[k - n..];
      assert forall d :: 0 <= d < |s[k..]| ==> s[k..][d] == s[k + d];
    }
    LastMarkIs(s, n);
    assert s[n..] == after;
  }

  /** A sanitised label hashes by its salted tail alone. */
  lemma SanitisedHash(s: Text)
    ensures LabelHash(Sanitised(s)) == Crc32(Tail(LabelHash(s)), 0)
  {
    hide Crc32, Tail, LastMark;
    TailHasOneMark(LabelHash(s));
    SignificantPart(s, Tail(LabelHash(s)));
  }

  /** The salt and the closing word, spelled out. */
  lemma SaltAndWord()
    ensures |SALT| == 11 && forall i :: 0 <= i < 11 ==> SALT[i] as char == "###somesalt"[i]
    ensures |DOOT| == 4 && forall i :: 0 <= i < 4 ==> DOOT[i] as char == "doot"[i]
  {
  }

  /** Different hashes get different tails, so the tail tells the hash of the label. */
  lemma TailTellsHash(hash: bv32, other: bv32)
    requires Tail(hash) == Tail(other)
    ensures hash == other
  {
    hide Decimal, ReadBack, Tail;
    var m, n := hash as nat, other as nat;
    TailMiddle(hash);
    TailMiddle(other);
    DecimalsDiffer(m, n);
    NumberTells(hash, other);
  }

  lemma DecimalsDiffer(m: nat, n: nat)
    requires Decimal(m) == Decimal(n)
    ensures m == n
  {
    hide Decimal, ReadBack;
    DecimalReadsBack(m);
    DecimalReadsBack(n);
  }

  lemma NumberTells(x: bv32, y: bv32)
    requires x as nat == y as nat
    ensures x == y
  {
    assert (x as nat) as bv32 == x;
    assert (y as nat) as bv32 == y;
  }

  lemma TailMiddle(hash: bv32)
    ensures |Tail(hash)| >= 15 && Tail(hash)[11..|Tail(hash)| - 4] == Decimal(hash as nat)
  {
    hide Decimal;
    Middle(SALT, Decimal(hash as nat), DOOT);
  }

  lemma Middle(a: Text, b: Text, c: Text)
    requires |a| == 11 && |c| == 4
    ensures (a + b + c)[11..|a + b + c| - 4] == b
  {
  }

  /** Labels the client cannot tell apart are not told apart by sanitising either. */
  lemma EqualHashesStayEqual(s: Text, other: Text)
    requires LabelHash(s) == LabelHash(other)
    ensures LabelHash(Sanitised(s)) == LabelHash(Sanitised(other))
  {
    SanitisedHash(s);
    SanitisedHash(other);
  }

  lemma TailHasOneMark(hash: bv32)
    ensures MarkAt(Tail(hash), 0) && forall k :: 0 < k < |Tail(hash)| ==> !MarkAt(Tail(hash), k)
  {
    hide Decimal;
    var tail, digits := Tail(hash), Decimal(hash as nat);
    assert tail[..3] == [HASH, HASH, HASH];
    forall k | 3 <= k < |tail|
      ensures tail[k] != HASH
    {
      if 11 <= k < 11 + |digits| {
        assert tail[k] == digits[k - 11];
      }
    }
  }
}
