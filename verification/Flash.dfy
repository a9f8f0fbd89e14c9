/** The flash driver of SSM/Core/Src/flash.c over an abstract flash bank: a page erase sets the
    page to 0xFF, a double-word program writes eight bytes of erased flash, and the supply or
    the controller may fail before any of these operations. */
module Flash {

  const FLASH_BASE := 0x0800_0000
  const BANK_SIZE := 0x4_0000
  const PAGE_SIZE := 0x800
  const BANK2_START := 0x0804_0000
  const SLOT0 := 0x0803_F000
  const SLOT1 := 0x0803_F800
  const USER_BASE := SLOT0
  const USER_END := SLOT1 + PAGE_SIZE - 1

  type uint32 = x: int | 0 <= x < 0x1_0000_0000

  /** FlashPageGet: pages are numbered from zero within their bank. */
  function PageOf(address: uint32): int
    requires address >= FLASH_BASE
  {
    if address < BANK2_START then (address - FLASH_BASE) / PAGE_SIZE
    else (address - (FLASH_BASE + BANK_SIZE)) / PAGE_SIZE
  }

  /** The argument checks of FlashWrite. */
  predicate WriteAccepted(address: uint32, size: uint32) {
    && size != 0
    && address % 8 == 0
    && USER_BASE <= address <= USER_END
    && size - 1 <= USER_END - address
  }

  /** The argument checks of FlashRead. */
  predicate ReadAccepted(address: uint32, size: uint32) {
    && size != 0
    && USER_BASE <= address <= USER_END
    && size - 1 <= USER_END - address
    && address % 4 == 0
  }

  /** A write is accepted exactly when it is not empty, starts at a double-word, and all its bytes lie
      in the two user pages; a read likewise, from a word on. */
  lemma AcceptedExactlyWhen(address: uint32, size: uint32)
    ensures WriteAccepted(address, size) <==>
            size > 0 && address % 8 == 0 && forall b :: address <= b < address + size ==> InUserArea(b)
    ensures ReadAccepted(address, size) <==>
            size > 0 && address % 4 == 0 && forall b :: address <= b < address + size ==> InUserArea(b)
  {
    if size > 0 && forall b :: address <= b < address + size ==> InUserArea(b) {
      assert InUserArea(address) && InUserArea(address + size - 1);
    }
  }

  predicate InUserArea(address: int) { 0x0803_F000 <= address <= 0x0803_FFFF }

  // ----- what a write leaves behind, byte by byte -----

  function DoubleWords(size: nat): nat { (size + 7) / 8 }

  function FirstPage(address: uint32): nat
    requires USER_BASE <= address <= USER_END
  {
    (address - FLASH_BASE) / PAGE_SIZE
  }

  function PageCount(address: uint32, size: uint32): nat
    requires WriteAccepted(address, size)
  {
    (address + size - 1 - FLASH_BASE) / PAGE_SIZE - FirstPage(address) + 1
  }

  function Min(a: int, b: int): int { if a <= b then a else b }

  /** Number of double-words programmed when `operations` hardware operations succeed. */
  function Programmed(address: uint32, size: uint32, operations: nat): nat
    requires WriteAccepted(address, size)
  {
    if operations <= PageCount(address, size) then 0
    else Min(operations - PageCount(address, size), DoubleWords(size))
  }

  /** Byte i of the bank after `pages` page erases and `words` double-word programs. */
  function ByteAfter(before: bv8, i: int, address: uint32, data: seq<bv8>, pages: nat, words: nat): bv8
    requires USER_BASE <= address <= USER_END
  {
    var k := i - (address - FLASH_BASE);
    if 0 <= k < 8 * words then (if k < |data| then data[k] else 0)
    else if FirstPage(address) * PAGE_SIZE <= i < (FirstPage(address) + pages) * PAGE_SIZE then 0xFF
    else before
  }

  ghost predicate IsAfter(bank': seq<bv8>, bank: seq<bv8>, address: uint32, data: seq<bv8>, pages: nat, words: nat)
    requires USER_BASE <= address <= USER_END
  {
    |bank'| == |bank| &&
    forall i :: 0 <= i < |bank| ==> bank'[i] == ByteAfter(bank[i], i, address, data, pages, words)
  }

  /** Double-word number w of the data, zero-padded after its last byte. */
  predicate IsPaddedWord(word: seq<bv8>, data: seq<bv8>, w: nat) {
    |word| == 8 &&
    forall k :: 0 <= k < 8 ==> word[k] == if 8 * w + k < |data| then data[8 * w + k] else 0
  }

  lemma OneMoreWord(after: seq<bv8>, middle: seq<bv8>, bank: seq<bv8>, address: uint32, data: seq<bv8>,
                    pages: nat, w: nat, word: seq<bv8>)
    requires USER_BASE <= address <= USER_END && |after| == |middle|
    requires IsAfter(middle, bank, address, data, pages, w) && IsPaddedWord(word, data, w)
    requires forall i :: 0 <= i < |middle| ==>
      after[i] == if 0 <= i - (address + 8 * w - FLASH_BASE) < 8 then word[i - (address + 8 * w - FLASH_BASE)]
                  else middle[i]
    ensures IsAfter(after, bank, address, data, pages, w + 1)
  {
  }

  class FlashDevice {
    const bank: array<bv8>
    /** Hardware operations that will still succeed before the device fails or loses power. */
    var operationsLeft: nat

    ghost predicate Valid() {
      bank.Length == BANK_SIZE
    }

    constructor (operations: nat)
      ensures Valid() && fresh(bank) && operationsLeft == operations
    {
      bank := new bv8[BANK_SIZE];
      operationsLeft := operations;
    }

    /** HAL erase of one page. */
    method HalErasePage(page: nat) returns (ok: bool)
      requires Valid() && (page + 1) * PAGE_SIZE <= BANK_SIZE
      modifies this`operationsLeft, bank
      ensures ok == (old(operationsLeft) > 0)
      ensures operationsLeft == if ok then old(operationsLeft) - 1 else 0
      ensures forall i :: 0 <= i < BANK_SIZE ==>
        bank[i] == if ok && page * PAGE_SIZE <= i < (page + 1) * PAGE_SIZE then 0xFF else old(bank[i])
    {
      ok := operationsLeft > 0;
      if ok {
        operationsLeft := operationsLeft - 1;
        forall i | page * PAGE_SIZE <= i < (page + 1) * PAGE_SIZE {
          bank[i] := 0xFF;
        }
      }
    }

    /** HAL program of one double-word; the hardware accepts it on erased flash only. */
    method HalProgram(address: uint32, word: seq<bv8>) returns (ok: bool)
      requires Valid() && |word| == 8
      requires FLASH_BASE <= address && address - FLASH_BASE + 8 <= BANK_SIZE && address % 8 == 0
      requires forall i :: address - FLASH_BASE <= i < address - FLASH_BASE + 8 ==> bank[i] == 0xFF
      modifies this`operationsLeft, bank
      ensures ok == (old(operationsLeft) > 0)
      ensures operationsLeft == if ok then old(operationsLeft) - 1 else 0
      ensures forall i :: 0 <= i < BANK_SIZE ==>
        bank[i] == if ok && 0 <= i - (address - FLASH_BASE) < 8 then word[i - (address - FLASH_BASE)] else old(bank[i])
    {
      ok := operationsLeft > 0;
      if ok {
        operationsLeft := operationsLeft - 1;
        forall k | 0 <= k < 8 {
          bank[address - FLASH_BASE + k] := word[k];
        }
      }
    }

    /** Erases every page that the bytes address .. address + size - 1 touch. */
    method FlashErase(address: uint32, size: uint32) returns (ok: bool)
      requires Valid() && WriteAccepted(address, size)
      modifies this`operationsLeft, bank
      ensures ok == (old(operationsLeft) >= PageCount(address, size))
      ensures operationsLeft == if ok then old(operationsLeft) - PageCount(address, size) else 0
      ensures IsAfter(bank[..], old(bank[..]), address, [],
                      Min(old(operationsLeft), PageCount(address, size)), 0)
    {
      var startPage := PageOf(address);
      var endPage := PageOf((address + size) - 1);
      var page := startPage;
      while page <= endPage
        invariant startPage <= page <= endPage + 1
        invariant operationsLeft == old(operationsLeft) - (page - startPage)
        invariant IsAfter(bank[..], old(bank[..]), address, [], page - startPage, 0)
      {
        var erased := HalErasePage(page);
        if !erased {
          return false;
        }
        page := page + 1;
      }
      return true;
    }

    /** Copies the next (at most eight) bytes into a zeroed double-word and programs it. */
    method ProgramNext(address: uint32, data: seq<bv8>, bytesWritten: nat, ghost erased: seq<bv8>)
      returns (ok: bool)
      requires Valid() && |data| < 0x1_0000_0000 && WriteAccepted(address, |data|)
      requires bytesWritten % 8 == 0 && bytesWritten < |data|
      requires |erased| == BANK_SIZE
      requires IsAfter(bank[..], erased, address, data, PageCount(address, |data|), bytesWritten / 8)
      modifies this`operationsLeft, bank
      ensures ok == (old(operationsLeft) > 0)
      ensures operationsLeft == if ok then old(operationsLeft) - 1 else 0
      ensures IsAfter(bank[..], erased, address, data, PageCount(address, |data|),
                      bytesWritten / 8 + if ok then 1 else 0)
    {
      PaddedWriteFits(address, |data|);
      ghost var middle := bank[..];
      var numBytes := if |data| - bytesWritten >= 8 then 8 else |data| - bytesWritten;
      var dataBuf := data[bytesWritten..bytesWritten + numBytes] + seq(8 - numBytes, _ => 0);
      assert IsPaddedWord(dataBuf, data, bytesWritten / 8);
      ok := HalProgram(address + bytesWritten, dataBuf);
      if ok {
        OneMoreWord(bank[..], middle, erased, address, data, PageCount(address, |data|), bytesWritten / 8, dataBuf);
      }
    }

    method FlashWrite(address: uint32, data: seq<bv8>, size: uint32) returns (ok: bool)
      requires Valid() && size <= |data|
      modifies this`operationsLeft, bank
      ensures !WriteAccepted(address, size) ==>
        !ok && bank[..] == old(bank[..]) && operationsLeft == old(operationsLeft)
      ensures WriteAccepted(address, size) ==>
        && ok == (old(operationsLeft) >= PageCount(address, size) + DoubleWords(size))
        && IsAfter(bank[..], old(bank[..]), address, data[..size],
                   Min(old(operationsLeft), PageCount(address, size)),
                   Programmed(address, size, old(operationsLeft)))
    {
      if size == 0 || address % 8 != 0 || address < USER_BASE || address > USER_END
        || size - 1 > USER_END - address {
        return false;
      }
      var erased := FlashErase(address, size);
      if !erased {
        return false;
      }
      var bytesWritten := 0;
      while bytesWritten < size
        invariant bytesWritten % 8 == 0 && bytesWritten / 8 <= DoubleWords(size)
        invariant operationsLeft == old(operationsLeft) - PageCount(address, size) - bytesWritten / 8
        invariant IsAfter(bank[..], old(bank[..]), address, data[..size], PageCount(address, size), bytesWritten / 8)
      {
        var programmed := ProgramNext(address, data[..size], bytesWritten, old(bank[..]));
        if !programmed {
          return false;
        }
        bytesWritten := bytesWritten + 8;
      }
      return true;
    }

    method FlashRead(address: uint32, buffer: array<bv8>, size: uint32) returns (ok: bool)
      requires Valid() && size <= buffer.Length && buffer != bank
      modifies buffer
      ensures ok == ReadAccepted(address, size)
      ensures !ok ==> buffer[..] == old(buffer[..])
      ensures ok ==> buffer[..size] == bank[address - FLASH_BASE..address - FLASH_BASE + size]
      ensures buffer[size..] == old(buffer[size..])
    {
      if size == 0 || address < USER_BASE || address > USER_END || size - 1 > USER_END - address {
        return false;
      }
      if address % 4 != 0 {
        return false;
      }
      var bytesRead := 0;
      while bytesRead < size
        invariant bytesRead <= size
        invariant buffer[..bytesRead] == bank[address - FLASH_BASE..address - FLASH_BASE + bytesRead]
        invariant buffer[size..] == old(buffer[size..])
      {
        buffer[bytesRead] := bank[address - FLASH_BASE + bytesRead];
        bytesRead := bytesRead + 1;
      }
      return true;
    }
  }

  /** Rounding a write up to whole double-words neither leaves the user area nor the last
      erased page. */
  lemma PaddedWriteFits(address: uint32, size: uint32)
    requires WriteAccepted(address, size)
    ensures address + 8 * DoubleWords(size) - 1 <= USER_END
    ensures FirstPage(address) * PAGE_SIZE <= address - FLASH_BASE
    ensures address - FLASH_BASE + 8 * DoubleWords(size) <= (FirstPage(address) + PageCount(address, size)) * PAGE_SIZE
  {
    var last := address + size - 1 - FLASH_BASE;
    RoundingStaysInPage(last);
    assert address - FLASH_BASE + 8 * DoubleWords(size) == (last / 8 + 1) * 8;
    assert FirstPage(address) + PageCount(address, size) == last / PAGE_SIZE + 1;
  }

  lemma RoundingStaysInPage(last: nat)
    ensures (last / 8 + 1) * 8 <= (last / PAGE_SIZE + 1) * PAGE_SIZE
  {
  }

  /** A completed write reads back as the data written. */
  lemma WriteReadsBack(after: seq<bv8>, bank: seq<bv8>, address: uint32, data: seq<bv8>)
    requires |bank| == BANK_SIZE && |data| < 0x1_0000_0000 && WriteAccepted(address, |data|)
    requires IsAfter(after, bank, address, data, PageCount(address, |data|), DoubleWords(|data|))
    ensures after[address - FLASH_BASE..address - FLASH_BASE + |data|] == data
  {
    PaddedWriteFits(address, |data|);
  }

  /** A completed write leaves zeros after the data up to the end of its last double-word, erased flash
      in the rest of its pages, and everything else as it was. */
  lemma WriteLeavesAround(after: seq<bv8>, bank: seq<bv8>, address: uint32, data: seq<bv8>, i: nat)
    requires |bank| == BANK_SIZE && |data| < 0x1_0000_0000 && WriteAccepted(address, |data|) && i < BANK_SIZE
    requires IsAfter(after, bank, address, data, PageCount(address, |data|), DoubleWords(|data|))
    requires !(0 <= i - (address - 0x0800_0000) < |data|)
    ensures var end := address - 0x0800_0000 + |data|;
      && (end <= i && i / 8 == (end - 1) / 8 ==> after[i] == 0)
      && (i < address - 0x0800_0000 || i / 8 > (end - 1) / 8 ==>
            after[i] == if (address - 0x0800_0000) / 2048 <= i / 2048 <= (end - 1) / 2048 then 0xFF else bank[i])
  {
    PaddedWriteFits(address, |data|);
  }

  /** However far a write gets, it changes nothing outside the pages its bytes lie in, and
      nothing outside the user area. */
  lemma WriteStaysInItsPages(after: seq<bv8>, bank: seq<bv8>, address: uint32, data: seq<bv8>,
                             pages: nat, words: nat, i: nat)
    requires |bank| == BANK_SIZE && |data| < 0x1_0000_0000 && WriteAccepted(address, |data|)
    requires pages <= PageCount(address, |data|) && words <= DoubleWords(|data|)
    requires IsAfter(after, bank, address, data, pages, words) && i < BANK_SIZE
    requires after[i] != bank[i]
    ensures USER_BASE <= FLASH_BASE + i <= USER_END
    ensures exists b: uint32 :: address <= b < address + |data| && PageOf(b) == PageOf(FLASH_BASE + i)
  {
    PaddedWriteFits(address, |data|);
    var last := address + |data| - 1;
    var page := i / PAGE_SIZE;
    var start := FLASH_BASE + page * PAGE_SIZE;
    var b := if start <= address then address else start;
    assert PageOf(b) == page == PageOf(FLASH_BASE + i);
  }
}
