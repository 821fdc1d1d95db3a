// The lazily erasing scratch writer of the OTA download
// (firmware/src/ota.rs:25-28, 202-254), on NOR flash: an erase sets every bit
// of a sector and a write can only clear bits.
module Scratch {

  newtype u32 = x: int | 0 <= x < 0x1_0000_0000

  const FLASH_SIZE: u32 := 0x20_0000
  const ERASE_SIZE: u32 := 4096
  const SCRATCH_OFFSET: u32 := 0x1E_0000
  const SCRATCH_LEN: u32 := 128 * 1024
  const CHUNK: nat := 1024

  datatype Op = Erased(from: nat, to: nat) | Written(from: nat, to: nat)

  predicate Aligned(a: u32) { a as int % 4096 == 0 }

  // Writing a cell can only clear its bits.
  function Programmed(cell: bv8, byte: bv8): bv8 { cell & byte }

  // The flash peripheral. `faulty` says which of its operations the device
  // refuses, without effect.
  class Flash {
    const cells: array<bv8>
    const faulty: nat -> bool
    var served: nat
    ghost var log: seq<Op>

    ghost predicate Valid()
      reads this
    {
      cells.Length == FLASH_SIZE as int
    }

    constructor (faulty: nat -> bool)
      ensures Valid() && fresh(cells) && this.faulty == faulty && log == []
    {
      cells := new bv8[FLASH_SIZE as int];
      this.faulty := faulty;
      served, log := 0, [];
    }

    method BlockingErase(from: u32, to: u32) returns (ok: bool)
      requires Valid()
      modifies this, cells
      ensures Valid()
      ensures ok ==> forall i :: 0 <= i < cells.Length ==>
                cells[i] == if from as int <= i < to as int then 0xFF else old(cells[i])
      ensures !ok ==> cells[..] == old(cells[..])
      ensures log == if ok then old(log) + [Erased(from as nat, to as nat)] else old(log)
      ensures from <= to <= FLASH_SIZE && Aligned(from) && Aligned(to) && (forall n :: !faulty(n)) ==> ok
    {
      served := served + 1;
      if !(from <= to <= FLASH_SIZE && Aligned(from) && Aligned(to)) || faulty(served) {
        return false;
      }
      forall i | from as int <= i < to as int {
        cells[i] := 0xFF;
      }
      log := log + [Erased(from as nat, to as nat)];
      ok := true;
    }

    method BlockingWrite(offset: u32, data: seq<bv8>) returns (ok: bool)
      requires Valid()
      modifies this, cells
      ensures Valid()
      ensures ok ==> offset as int + |data| <= cells.Length && forall i :: 0 <= i < cells.Length ==>
                cells[i] == if offset as int <= i < offset as int + |data|
                            then Programmed(old(cells[i]), data[i - offset as int]) else old(cells[i])
      ensures !ok ==> cells[..] == old(cells[..])
      ensures log == if ok then old(log) + [Written(offset as nat, offset as nat + |data|)] else old(log)
      ensures offset as int + |data| <= FLASH_SIZE as int && (forall n :: !faulty(n)) ==> ok
    {
      served := served + 1;
      if !(offset as int + |data| <= FLASH_SIZE as int) || faulty(served) {
        return false;
      }
      forall i | offset as int <= i < offset as int + |data| {
        cells[i] := Programmed(cells[i], data[i - offset as int]);
      }
      log := log + [Written(offset as nat, offset as nat + |data|)];
      ok := true;
    }
  }

  datatype Outcome<T> = Ok(value: T) | TooLarge | BodyRead | Device | Overflow

  // ------------------------------------------------------------- the device log

  // Over the region, sector s is bytes s*4096 to (s+1)*4096.
  predicate SectorOp(o: Op, s: nat) {
    o == Erased(SCRATCH_OFFSET as nat + s * 4096, SCRATCH_OFFSET as nat + (s + 1) * 4096)
  }

  // Every operation is inside the region; the erases are of sectors 0, 1, 2..
  // in order, so none twice; a write starts where the last one ended, so no
  // byte twice; and everything written lies in sectors erased before.
  ghost predicate Orderly(log: seq<Op>, erased: nat, written: nat)
    decreases |log|
  {
    if log == [] then erased == 0 && written == 0
    else
      var last := log[|log| - 1];
      var before := log[..|log| - 1];
      match last
      case Erased(_, _) =>
        erased > 0 && SectorOp(last, erased - 1) && erased * 4096 <= SCRATCH_LEN as nat
        && written <= (erased - 1) * 4096 && Orderly(before, erased - 1, written)
      case Written(from, to) =>
        var start := from - SCRATCH_OFFSET as nat;
        SCRATCH_OFFSET as nat <= from < to == SCRATCH_OFFSET as nat + written && written <= erased * 4096
        && Orderly(before, erased, start)
  }

  ghost predicate Disciplined(log: seq<Op>) {
    exists erased: nat, written: nat :: Orderly(log, erased, written)
  }

  // No sector is erased a second time, or once anything in it is written.
  ghost predicate Touches(o: Op, from: nat, to: nat) {
    o.from < to && from < o.to
  }

  lemma {:induction false} OrderlyBounds(log: seq<Op>, erased: nat, written: nat, j: nat)
    requires Orderly(log, erased, written) && j < |log|
    ensures SCRATCH_OFFSET as nat <= log[j].from < log[j].to <= (SCRATCH_OFFSET + SCRATCH_LEN) as nat
    ensures log[j].Erased? ==> log[j].to <= SCRATCH_OFFSET as nat + erased * 4096
    ensures log[j].Written? ==> log[j].to <= SCRATCH_OFFSET as nat + written
    ensures erased * 4096 <= SCRATCH_LEN as nat && written <= erased * 4096
    decreases |log|
  {
    var before, last := log[..|log| - 1], log[|log| - 1];
    var e, w := if last.Erased? then erased - 1 else erased,
                if last.Erased? then written else last.from - SCRATCH_OFFSET as nat;
    if before == [] {
    } else if j < |before| {
      OrderlyBounds(before, e, w, j);
    } else {
      OrderlyBounds(before, e, w, 0);
    }
  }

  lemma {:induction false} NeverErasedAfter(log: seq<Op>, erased: nat, written: nat, j: nat, k: nat)
    requires Orderly(log, erased, written) && j < k < |log| && log[k].Erased?
    ensures !Touches(log[j], log[k].from, log[k].to)
    decreases |log|
  {
    var before, last := log[..|log| - 1], log[|log| - 1];
    if k == |before| {
      OrderlyBounds(before, erased - 1, written, j);
    } else if last.Erased? {
      NeverErasedAfter(before, erased - 1, written, j, k);
    } else {
      NeverErasedAfter(before, erased, last.from - SCRATCH_OFFSET as nat, j, k);
    }
  }

  // ------------------------------------------------------------------ Scratch

  function Sectors(bytes: nat): nat { (bytes + 4095) / 4096 }

  function Max(a: nat, b: nat): nat { if a < b then b else a }

  const BASE: nat := SCRATCH_OFFSET as nat

  // A cell once sectors e0 to e1 of the region are erased.
  function EraseCell(cell: bv8, i: int, e0: nat, e1: nat): bv8 {
    if BASE + e0 * 4096 <= i < BASE + e1 * 4096 then 0xFF else cell
  }

  // A cell once the data is written at an address of the device.
  function WriteCell(cell: bv8, i: int, at: nat, data: seq<bv8>): bv8 {
    if at <= i < at + |data| then Programmed(cell, data[i - at]) else cell
  }

  const U32: nat := 0x1_0000_0000

  // Where a write ends in the region, and where it begins on the device, as a
  // `u32` sum has it.
  function End(offset: u32, data: seq<bv8>): nat { (offset as nat + |data|) % U32 }

  function Address(offset: u32): nat { (BASE + offset as nat) % U32 }

  predicate Overflows(offset: u32, data: seq<bv8>) { data != [] && offset as nat + |data| >= U32 }

  // The log once sectors e0 to e1 are erased, one by one.
  function Erases(log: seq<Op>, e0: nat, e1: nat): seq<Op> {
    if e1 <= e0 then log else Erases(log, e0, e1 - 1) + [Erased(BASE + (e1 - 1) * 4096, BASE + e1 * 4096)]
  }

  // An accepted write lands in the region exactly when its end does not
  // overflow.
  lemma LandsInRegion(offset: u32, data: seq<bv8>)
    requires data != [] && |data| < U32 && End(offset, data) <= SCRATCH_LEN as nat
    ensures BASE <= Address(offset) && Address(offset) + |data| <= BASE + SCRATCH_LEN as nat
            <==> !Overflows(offset, data)
  {
    if Overflows(offset, data) {
      assert End(offset, data) == offset as nat + |data| - U32;
      assert BASE + offset as nat >= U32 ==> Address(offset) == BASE + offset as nat - U32;
    }
  }

  class Scratch {
    const flash: Flash
    const checked: bool
    var erasedSectors: u32

    ghost predicate Valid()
      reads this, flash
    {
      flash.Valid() && erasedSectors <= 32
    }

    // checked: the build panics where a `u32` sum overflows, as it does by
    // default with debug assertions; otherwise the sum wraps.
    constructor (flash: Flash, checked: bool)
      requires flash.Valid()
      ensures Valid() && this.flash == flash && this.checked == checked && erasedSectors == 0
    {
      this.flash := flash;
      this.checked := checked;
      erasedSectors := 0;
    }

    // A write anywhere: the sectors up to its end that are not erased yet are
    // erased, then the data is ANDed in. A write past the region is refused
    // and changes nothing, and so is one that panics; where the device fails,
    // only erases have happened. A slice is shorter than the address space.
    method Write(offset: u32, data: seq<bv8>) returns (r: Outcome<()>)
      requires Valid() && |data| < U32
      modifies this, flash, flash.cells
      ensures Valid()
      ensures r.Overflow? <==> checked && Overflows(offset, data)
      ensures r.TooLarge? <==> data != [] && !r.Overflow? && End(offset, data) > SCRATCH_LEN as nat
      ensures data == [] ==> r.Ok?
      ensures data == [] || r.TooLarge? || r.Overflow? ==>
                erasedSectors == old(erasedSectors) && flash.log == old(flash.log)
                    && flash.cells[..] == old(flash.cells[..])
      ensures r.Ok? && data != [] ==>
                && erasedSectors as nat == Max(old(erasedSectors) as nat, Sectors(End(offset, data)))
                && flash.log == Erases(old(flash.log), old(erasedSectors) as nat, erasedSectors as nat)
                                + [Written(Address(offset), Address(offset) + |data|)]
                && forall i :: 0 <= i < flash.cells.Length ==>
                     flash.cells[i] == WriteCell(
                       EraseCell(old(flash.cells[i]), i, old(erasedSectors) as nat, erasedSectors as nat),
                       i, Address(offset), data)
      ensures r.Device? ==>
                && old(erasedSectors) <= erasedSectors
                && erasedSectors as nat <= Max(old(erasedSectors) as nat, Sectors(End(offset, data)))
                && flash.log == Erases(old(flash.log), old(erasedSectors) as nat, erasedSectors as nat)
                && forall i :: 0 <= i < flash.cells.Length ==>
                     flash.cells[i] ==
                       EraseCell(old(flash.cells[i]), i, old(erasedSectors) as nat, erasedSectors as nat)
      ensures !r.BodyRead?
      ensures (forall n :: !flash.faulty(n)) && r.Device? ==> Address(offset) + |data| > FLASH_SIZE as nat
    {
      hide Programmed, Erases;
      if data == [] {
        return Ok(());
      }
      if checked && Overflows(offset, data) {
        return Overflow;
      }
      var end := End(offset, data) as u32;
      if end > SCRATCH_LEN {
        return TooLarge;
      }
      var erased := EraseUpTo(DivCeil(end));
      if !erased {
        return Device;
      }
      var written := flash.BlockingWrite(Address(offset) as u32, data);
      if !written {
        return Device;
      }
      r := Ok(());
    }

    // Erase the sectors up to `needed` that are not erased yet.
    method EraseUpTo(needed: u32) returns (ok: bool)
      requires Valid() && needed <= 32
      modifies this`erasedSectors, flash, flash.cells
      ensures Valid() && old(erasedSectors) <= erasedSectors
      ensures erasedSectors as nat <= Max(old(erasedSectors) as nat, needed as nat)
      ensures flash.log == Erases(old(flash.log), old(erasedSectors) as nat, erasedSectors as nat)
      ensures forall i :: 0 <= i < flash.cells.Length ==>
                flash.cells[i] == EraseCell(old(flash.cells[i]), i, old(erasedSectors) as nat, erasedSectors as nat)
      ensures ok ==> erasedSectors as nat == Max(old(erasedSectors) as nat, needed as nat)
      ensures (forall n :: !flash.faulty(n)) ==> ok
    {
      ghost var e0 := erasedSectors as nat;
      while erasedSectors < needed
        invariant Valid() && e0 <= erasedSectors as nat <= Max(e0, needed as nat)
        invariant flash.log == Erases(old(flash.log), e0, erasedSectors as nat)
        invariant forall i :: 0 <= i < flash.cells.Length ==>
                    flash.cells[i] == EraseCell(old(flash.cells[i]), i, e0, erasedSectors as nat)
        decreases needed as nat - erasedSectors as nat
      {
        var s := SCRATCH_OFFSET + erasedSectors * ERASE_SIZE;
        var erased := flash.BlockingErase(s, s + ERASE_SIZE);
        if !erased {
          return false;
        }
        erasedSectors := erasedSectors + 1;
      }
      ok := true;
    }
  }

  // ------------------------------------------- an append-only byte buffer

  // The region stands for these bytes: they are what was appended, everything
  // erased behind them is blank, and the device was used in order.
  ghost predicate Holds(cells: seq<bv8>, erased: nat, log: seq<Op>, contents: seq<bv8>) {
    && |cells| == FLASH_SIZE as int
    && |contents| <= erased * 4096 <= SCRATCH_LEN as int
    && erased == Sectors(|contents|)
    && (forall i :: BASE <= i < BASE + |contents| ==> cells[i] == contents[i - BASE])
    && (forall i :: BASE + |contents| <= i < BASE + erased * 4096 ==> cells[i] == 0xFF)
    && Orderly(log, erased, |contents|)
  }

  lemma NothingHeld(cells: seq<bv8>)
    requires |cells| == FLASH_SIZE as int
    ensures Holds(cells, 0, [], [])
  {
  }

  lemma {:induction false} ErasesInOrder(log: seq<Op>, e0: nat, e1: nat, written: nat)
    requires Orderly(log, e0, written) && written <= e0 * 4096 && e0 <= e1 <= 32
    ensures Orderly(Erases(log, e0, e1), e1, written)
  {
    if e0 < e1 {
      ErasesInOrder(log, e0, e1 - 1, written);
      var after := Erases(log, e0, e1);
      assert after[..|after| - 1] == Erases(log, e0, e1 - 1);
    }
  }

  lemma WritesInOrder(log: seq<Op>, erased: nat, written: nat, size: nat)
    requires Orderly(log, erased, written) && size > 0 && written + size <= erased * 4096
    ensures Orderly(log + [Written(BASE + written, BASE + written + size)], erased, written + size)
  {
    var after := log + [Written(BASE + written, BASE + written + size)];
    assert after[..|after| - 1] == log;
  }

  lemma SectorsCover(bytes: nat, more: nat)
    ensures bytes <= Sectors(bytes) * 4096 && Sectors(bytes) <= Sectors(bytes + more)
    ensures bytes <= SCRATCH_LEN as nat ==> Sectors(bytes) <= 32
  {
  }

  // A write at the running total appends; nothing before the region and no
  // byte appended earlier changes.
  lemma AppendHolds(was: seq<bv8>, now: seq<bv8>, e0: nat, e1: nat, log: seq<Op>, contents: seq<bv8>, data: seq<bv8>)
    requires Holds(was, e0, log, contents) && data != [] && |contents| + |data| <= SCRATCH_LEN as int
    requires e1 == Max(e0, Sectors(|contents| + |data|)) && |now| == |was|
    requires forall i :: 0 <= i < |was| ==>
               now[i] == WriteCell(EraseCell(was[i], i, e0, e1), i, BASE + |contents|, data)
    ensures var written := Written(BASE + |contents|, BASE + |contents| + |data|);
            Holds(now, e1, Erases(log, e0, e1) + [written], contents + data)
    ensures now[..BASE + |contents|] == was[..BASE + |contents|]
  {
    hide Orderly, Erases, Sectors, Programmed;
    AndOnes();
    SectorsCover(|contents|, |data|);
    SectorsCover(|contents| + |data|, 0);
    ErasesInOrder(log, e0, e1, |contents|);
    WritesInOrder(Erases(log, e0, e1), e1, |contents|, |data|);
  }

  lemma AndOnes()
    ensures forall b: bv8 :: Programmed(0xFF, b) == b
  {
  }

  // `u32::div_ceil` by the sector size
  function DivCeil(end: u32): (n: u32)
    requires end <= SCRATCH_LEN
    ensures n as int == Sectors(end as int) && n as int <= 32
    ensures (n as int - 1) * 4096 < end as int <= n as int * 4096
  {
    if end % ERASE_SIZE == 0 then end / ERASE_SIZE else end / ERASE_SIZE + 1
  }

  // ------------------------------------------------------------- the download

  // What one read of the response body gives; an empty chunk is its end.
  datatype Read = Chunk(bytes: seq<bv8>) | Broken

  // The append-only buffer the scratch region stands for.
  function Receive(body: seq<Read>, so_far: seq<bv8>): Outcome<seq<bv8>> {
    if body == [] then Ok(so_far)
    else
      match body[0]
      case Broken => BodyRead
      case Chunk(bytes) =>
        if bytes == [] then Ok(so_far)
        else if |so_far| + |bytes| > SCRATCH_LEN as int then TooLarge
        else Receive(body[1..], so_far + bytes)
  }

  lemma ReceiveAt(body: seq<Read>, i: nat, so_far: seq<bv8>)
    requires i <= |body|
    ensures i == |body| ==> Receive(body[i..], so_far) == Ok(so_far)
    ensures i < |body| ==>
              Receive(body[i..], so_far)
              == match body[i]
                 case Broken => BodyRead
                 case Chunk(bytes) =>
                   if bytes == [] then Ok(so_far)
                   else if |so_far| + |bytes| > SCRATCH_LEN as int then TooLarge
                   else Receive(body[i + 1..], so_far + bytes)
  {
    if i < |body| {
      assert body[i..][0] == body[i] && body[i..][1..] == body[i + 1..];
    }
  }

  // One write at the running total.
  method Append(scratch: Scratch, written: u32, bytes: seq<bv8>, ghost contents: seq<bv8>) returns (w: Outcome<()>)
    requires scratch.Valid() && written as int == |contents| && 0 < |bytes| <= CHUNK
    requires Holds(scratch.flash.cells[..], scratch.erasedSectors as nat, scratch.flash.log, contents)
    modifies scratch, scratch.flash, scratch.flash.cells
    ensures scratch.Valid()
    ensures w.TooLarge? <==> |contents| + |bytes| > SCRATCH_LEN as int
    ensures w.Ok? || w.TooLarge? || w.Device?
    ensures (forall n :: !scratch.flash.faulty(n)) ==> !w.Device?
    ensures w.Ok? ==>
              Holds(scratch.flash.cells[..], scratch.erasedSectors as nat, scratch.flash.log, contents + bytes)
    ensures !w.Ok? ==> Disciplined(scratch.flash.log)
    ensures forall k :: 0 <= k < BASE ==> scratch.flash.cells[k] == old(scratch.flash.cells[k])
  {
    hide Orderly, Erases, WriteCell, EraseCell, Sectors, Max, Disciplined, End, Address, Overflows, Programmed;
    var flash := scratch.flash;
    ghost var was, log, e0 := flash.cells[..], flash.log, scratch.erasedSectors as nat;
    InRange(written, bytes);
    w := scratch.Write(written, bytes);
    ghost var now, e1 := flash.cells[..], scratch.erasedSectors as nat;
    hide Holds;
    if w.Ok? {
      AppendHolds(was, now, e0, e1, log, contents, bytes);
      BeforeRegion(was, now, |contents|);
    } else {
      FailedWrite(was, now, e0, e1, log, flash.log, contents, |bytes|, w.TooLarge?);
    }
  }

  // firmware/src/ota.rs:202-217: the receive loop. A body that ends is a body
  // whose remaining reads are empty.
  method DownloadToScratch(body: seq<Read>, flash: Flash, checked: bool) returns (r: Outcome<nat>)
    requires flash.Valid() && flash.log == []
    requires forall k :: 0 <= k < |body| && body[k].Chunk? ==> |body[k].bytes| <= CHUNK
    modifies flash, flash.cells
    ensures r.Ok? ==> Receive(body, []).Ok? && r.value == |Receive(body, []).value| <= SCRATCH_LEN as int
                      && flash.cells[BASE..BASE + r.value] == Receive(body, []).value
    ensures r.TooLarge? ==> Receive(body, []).TooLarge?
    ensures r.BodyRead? ==> Receive(body, []).BodyRead?
    ensures !r.Overflow? && ((forall n :: !flash.faulty(n)) ==> !r.Device?)
    ensures forall i :: 0 <= i < BASE ==> flash.cells[i] == old(flash.cells[i])
    ensures Disciplined(flash.log)
  {
    var scratch := new Scratch(flash, checked);
    var written: u32 := 0;
    ghost var contents: seq<bv8> := [];
    hide Holds, Orderly, Disciplined, Receive;
    assert body[0..] == body;
    NothingHeld(flash.cells[..]);
    var i := 0;
    while i < |body|
      invariant i <= |body|
      invariant scratch.flash == flash && fresh(scratch) && scratch.Valid()
      invariant written as int == |contents| <= SCRATCH_LEN as int
      invariant Holds(flash.cells[..], scratch.erasedSectors as nat, flash.log, contents)
      invariant Receive(body[i..], contents) == Receive(body, [])
      invariant forall k :: 0 <= k < BASE ==> flash.cells[k] == old(flash.cells[k])
      modifies scratch, flash, flash.cells
    {
      ReceiveAt(body, i, contents);
      match body[i] {
        case Broken =>
          HoldsDisciplined(flash.cells[..], scratch.erasedSectors as nat, flash.log, contents);
          return BodyRead;
        case Chunk(bytes) =>
          if |bytes| == 0 {
            break;
          }
          var w := Append(scratch, written, bytes, contents);
          if !w.Ok? {
            return if w.TooLarge? then TooLarge else Device;
          }
          written := written + |bytes| as u32;
          contents := contents + bytes;
      }
      i := i + 1;
    }
    ReceiveAt(body, i, contents);
    HoldsDisciplined(flash.cells[..], scratch.erasedSectors as nat, flash.log, contents);
    r := Ok(written as nat);
  }

  // Nothing overflows at a running total the region has held.
  lemma InRange(offset: u32, data: seq<bv8>)
    requires offset <= SCRATCH_LEN && |data| <= CHUNK
    ensures !Overflows(offset, data)
    ensures End(offset, data) == offset as nat + |data| && Address(offset) == BASE + offset as nat
    ensures End(offset, data) <= SCRATCH_LEN as nat ==> Address(offset) + |data| <= FLASH_SIZE as nat
  {
  }

  lemma HoldsDisciplined(cells: seq<bv8>, erased: nat, log: seq<Op>, contents: seq<bv8>)
    requires Holds(cells, erased, log, contents)
    ensures Disciplined(log) && cells[BASE..BASE + |contents|] == contents
  {
    hide Orderly;
  }

  lemma BeforeRegion(was: seq<bv8>, now: seq<bv8>, n: nat)
    requires BASE + n <= |was| == |now| && now[..BASE + n] == was[..BASE + n]
    ensures forall k :: 0 <= k < BASE ==> now[k] == was[k]
  {
    assert forall k :: 0 <= k < BASE ==> now[k] == now[..BASE + n][k] && was[k] == was[..BASE + n][k];
  }

  // A write that fails leaves the device used in order, and the cells before
  // the region alone.
  lemma FailedWrite(was: seq<bv8>, now: seq<bv8>, e0: nat, e1: nat, log: seq<Op>, after: seq<Op>, contents: seq<bv8>,
                    size: nat, tooLarge: bool)
    requires Holds(was, e0, log, contents) && |now| == |was|
    requires tooLarge ==> now == was && after == log
    requires !tooLarge ==> e0 <= e1 <= Max(e0, Sectors(|contents| + size)) && |contents| + size <= SCRATCH_LEN as int
    requires !tooLarge ==> after == Erases(log, e0, e1)
    requires !tooLarge ==> forall i :: 0 <= i < |was| ==> now[i] == EraseCell(was[i], i, e0, e1)
    ensures Disciplined(after)
    ensures forall k :: 0 <= k < BASE ==> now[k] == was[k]
  {
    hide Orderly, Erases, Sectors;
    SectorsCover(|contents|, size);
    SectorsCover(|contents| + size, 0);
    if !tooLarge {
      ErasesInOrder(log, e0, e1, |contents|);
    }
  }
}
