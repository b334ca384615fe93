// The growable byte buffer with a prepend header, its writer and its reader, on an array with
// two indices.  Every method is proved against the buffer as a value.

module ByteBuffers {
  import opened Wire
  import opened BufferModel

  const SPILL_SIZE: nat := 65536
  const RETRIABLE_ERROR: int := -11

  /** What `::readv` delivers. */
  datatype Received = Data(bytes: Bytes) | Failure

  class ByteBuffer {
    var buff: array<Byte>
    var caps: nat
    var readIndex: nat
    var writeIndex: nat
    const reserved: nat

    ghost predicate Valid()
      reads this, buff
    {
      && buff.Length == caps < MAX_ALLOC
      && reserved <= caps
      && readIndex <= writeIndex <= caps
      && (readIndex == writeIndex ==> readIndex == reserved)
    }

    ghost function Contents(): Bytes
      reads this, buff
      requires Valid()
    {
      buff[readIndex..writeIndex]
    }

    ghost function View(): (v: Buf)
      reads this, buff
      requires Valid()
      ensures Ok(v)
    {
      Buf(reserved, caps, readIndex, Contents())
    }

    constructor (prependSize: nat, initialSize: nat)
      requires prependSize + initialSize < MAX_ALLOC
      ensures Valid() && fresh(buff) && reserved == prependSize
      ensures View() == Buf(prependSize, prependSize + initialSize, prependSize, [])
    {
      caps := prependSize + initialSize;
      reserved, readIndex, writeIndex := prependSize, prependSize, prependSize;
      buff := new Byte[prependSize + initialSize](_ => 0);
    }

    function WritableBytes(): int
      reads this
    {
      caps - writeIndex
    }

    function UnreadBytes(): int
      reads this
    {
      writeIndex - readIndex
    }

    function AvailableBytes(): int
      reads this
    {
      caps - reserved - UnreadBytes()
    }

    /** Zero means "leave this index alone", also when the index is to be set to zero. */
    method UpdateReadWriteIndex(r: nat, w: nat, increment: bool)
      modifies this`readIndex, this`writeIndex
      ensures readIndex == if r == 0 then old(readIndex) else if increment then (old(readIndex) + r) % SIZE_MODULUS else r
      ensures writeIndex == if w == 0 then old(writeIndex) else if increment then (old(writeIndex) + w) % SIZE_MODULUS else w
    {
      if increment {
        if r != 0 { readIndex := (readIndex + r) % SIZE_MODULUS; }
        if w != 0 { writeIndex := (writeIndex + w) % SIZE_MODULUS; }
      } else {
        if r != 0 { readIndex := r; }
        if w != 0 { writeIndex := w; }
      }
    }

    method Reset()
      requires Valid()
      modifies this`readIndex, this`writeIndex
      ensures Valid() && View() == Removed(old(View()), |old(Contents())|) && Contents() == []
    {
      readIndex, writeIndex := reserved, reserved;
    }

    // ---------- the writer ----------

    /** memcpy or memmove into the block. */
    method Store(at: nat, data: Bytes)
      requires at + |data| <= buff.Length
      modifies buff
      ensures buff[..] == old(buff[..at]) + data + old(buff[at + |data|..])
      ensures forall i :: 0 <= i < buff.Length && !(at <= i < at + |data|) ==> buff[i] == old(buff[i])
      ensures buff[at..at + |data|] == data
    {
      forall i | 0 <= i < |data| {
        buff[at + i] := data[i];
      }
    }

    /** A zeroed block with a copy of the unread bytes after the header. */
    method Copied(size: nat) returns (mem: array<Byte>)
      requires Valid() && reserved + UnreadBytes() <= size
      ensures fresh(mem) && mem.Length == size
      ensures mem[reserved..reserved + |Contents()|] == Contents()
    {
      mem := new Byte[size](_ => 0);
      forall i | 0 <= i < UnreadBytes() {
        mem[reserved + i] := buff[readIndex + i];
      }
    }

    /** grow's first branch: a larger block with the unread bytes after the header. */
    method Reallocate(length: nat)
      requires Valid() && 2 * caps + length < MAX_ALLOC
      modifies this
      ensures fresh(buff) && buff.Length == caps == 2 * old(caps) + length
      ensures reserved + |old(Contents())| <= caps
      ensures buff[reserved..reserved + |old(Contents())|] == old(Contents())
      ensures readIndex == if reserved == 0 then old(readIndex) else reserved
      ensures writeIndex == if reserved + |old(Contents())| == 0 then old(writeIndex) else reserved + |old(Contents())|
    {
      var unread := UnreadBytes();
      var newSize := caps * 2 + length;
      buff := Copied(newSize);
      UpdateReadWriteIndex(reserved, reserved + unread, false);
      caps := newSize;
    }

    /** grow's second branch: the unread bytes slide down to the header; the blocks may overlap. */
    method Compact()
      requires Valid() && reserved < readIndex
      modifies this`readIndex, this`writeIndex, buff
      ensures buff[reserved..reserved + |old(Contents())|] == old(Contents())
      ensures readIndex == if reserved == 0 then old(readIndex) else reserved
      ensures writeIndex == reserved + |old(Contents())|
    {
      var unread := UnreadBytes();
      ghost var before := Contents();
      forall i | 0 <= i < unread {
        buff[reserved + i] := buff[readIndex + i];
      }
      assert buff[reserved..reserved + unread] == before;
      UpdateReadWriteIndex(reserved, reserved + unread, false);
    }

    /** `ok` is false when an assert of the code trips.  Otherwise there is room for `length` more
        bytes.  The contents survive exactly under GrowOk: with no header the read index should
        become 0, which updateReadWriteIndex ignores; and compaction insists on moving something. */
    method Grow(length: nat) returns (ok: bool)
      requires Valid() && CanReallocate(View(), length)
      modifies this, buff
      ensures buff == old(buff) || fresh(buff)
      ensures ok && Valid() && Contents() == old(Contents()) <==> GrowOk(old(View()), length)
      ensures GrowOk(old(View()), length) ==> View() == Grown(old(View()), length) && length <= WritableBytes()
      ensures reserved > 0 ==> (ok <==> GrowOk(old(View()), length))
      ensures ok ==> buff.Length == caps < MAX_ALLOC && writeIndex + length <= caps
      ensures ok && !GrowOk(old(View()), length) ==> writeIndex - readIndex < |old(Contents())|
    {
      var unread := UnreadBytes();
      if readIndex + WritableBytes() < reserved + length {
        Reallocate(length);
        ok := true;
      } else {
        if reserved >= readIndex {
          return false;
        }
        Compact();
        ok := UnreadBytes() == unread && WritableBytes() >= length;
      }
    }

    method StoreAtEnd(data: Bytes)
      requires buff.Length == caps < MAX_ALLOC && writeIndex + |data| <= caps
      modifies this`readIndex, this`writeIndex, buff
      ensures readIndex == old(readIndex) && writeIndex == old(writeIndex) + |data|
      ensures old(Valid()) ==> Valid() && View() == old(View()).(contents := old(Contents()) + data)
    {
      ghost var r, before := readIndex, buff[..writeIndex];
      Store(writeIndex, data);
      assert buff[..writeIndex + |data|] == before + data;
      UpdateReadWriteIndex(0, |data|, true);
      if old(Valid()) {
        assert Contents() == (before + data)[r..] == before[r..] + data;
      }
    }

    /** Appending has the effect it has on a plain sequence exactly when there is room already,
        or a header, or nothing was read yet. */
    method Append(data: Bytes) returns (ok: bool)
      requires Valid() && (|data| <= WritableBytes() || CanReallocate(View(), |data|))
      modifies this, buff
      ensures buff == old(buff) || fresh(buff)
      ensures ok && Valid() && Contents() == old(Contents()) + data <==> AppendOk(old(View()), |data|)
      ensures AppendOk(old(View()), |data|) ==> View() == Appended(old(View()), data)
    {
      ok := true;
      if WritableBytes() < |data| {
        ok := Grow(|data|);
        if !ok { return; }
      }
      StoreAtEnd(data);
      assert Valid() ==> |Contents()| == writeIndex - readIndex;
    }

    /** The index goes down by adding the wrapped-around negative of the size. */
    method Prepend(data: Bytes)
      requires Valid() && 1 <= |data| <= readIndex
      modifies this`readIndex, this`writeIndex, buff
      ensures Valid() && View() == Prepended(old(View()), data)
    {
      ghost var before := Contents();
      UpdateReadWriteIndex(SIZE_MODULUS - |data|, 0, true);
      assert readIndex == old(readIndex) - |data|;
      Store(readIndex, data);
      assert Contents() == data + before;
    }

    method PrependInt32(x: bv32)
      requires Valid() && 4 <= readIndex
      modifies this`readIndex, this`writeIndex, buff
      ensures Valid() && View() == Prepended(old(View()), Wire32(x))
    {
      Prepend(Memory32(Swap32(x)));
    }

    method PrependInt64(x: bv64)
      requires Valid() && 8 <= readIndex
      modifies this`readIndex, this`writeIndex, buff
      ensures Valid() && View() == Prepended(old(View()), Wire64(x))
    {
      Prepend(Memory64(Swap64(x)));
    }

    method AppendInt32(x: bv32) returns (ok: bool)
      requires Valid() && (4 <= WritableBytes() || CanReallocate(View(), 4))
      modifies this, buff
      ensures buff == old(buff) || fresh(buff)
      ensures ok && Valid() && Contents() == old(Contents()) + Wire32(x) <==> AppendOk(old(View()), 4)
      ensures AppendOk(old(View()), 4) ==> View() == Appended(old(View()), Wire32(x))
    {
      ok := Append(Memory32(Swap32(x)));
    }

    method AppendInt64(x: bv64) returns (ok: bool)
      requires Valid() && (8 <= WritableBytes() || CanReallocate(View(), 8))
      modifies this, buff
      ensures buff == old(buff) || fresh(buff)
      ensures ok && Valid() && Contents() == old(Contents()) + Wire64(x) <==> AppendOk(old(View()), 8)
      ensures AppendOk(old(View()), 8) ==> View() == Appended(old(View()), Wire64(x))
    {
      ok := Append(Memory64(Swap64(x)));
    }

    // ---------- the reader ----------

    method Remove(length: nat)
      requires Valid()
      modifies this`readIndex, this`writeIndex
      ensures Valid() && View() == Removed(old(View()), length)
    {
      if length < UnreadBytes() {
        UpdateReadWriteIndex(length, 0, true);
        assert Contents() == old(Contents())[length..];
      } else {
        Reset();
      }
    }

    /** The slice points into the block, which removal leaves as it is. */
    method Consume(length: nat, verify: bool) returns (slice: Bytes)
      requires Valid()
      modifies this`readIndex, this`writeIndex
      ensures Valid()
      ensures if verify && length > |old(Contents())| then slice == [] && View() == old(View())
              else slice == Taken(old(Contents()), length) && View() == Removed(old(View()), length)
      ensures length <= |old(Contents())| ==> |slice| == length && slice + Contents() == old(Contents())
      ensures length > |old(Contents())| && !verify ==> slice == old(Contents()) && Contents() == []
    {
      TakenDropped(Contents(), length);
      if length <= UnreadBytes() {
        slice := buff[readIndex..readIndex + length];
        assert slice == Contents()[..length] == Taken(Contents(), length);
        Remove(length);
        return;
      }
      if verify {
        return [];
      }
      slice := buff[readIndex..writeIndex];
      Remove(UnreadBytes());
    }

    method PeekInt32() returns (x: bv32)
      requires Valid()
      ensures x == Read32(Contents()).0
    {
      if UnreadBytes() < 4 {
        return MINUS_ONE_32;
      }
      var m := buff[readIndex..readIndex + 4];
      assert m == Contents()[..4];
      x := Swap32(Load32(m));
    }

    method PeekInt64() returns (x: bv64)
      requires Valid()
      ensures x == Read64(Contents()).0
    {
      if UnreadBytes() < 8 {
        return MINUS_ONE_64;
      }
      var m := buff[readIndex..readIndex + 8];
      assert m == Contents()[..8];
      x := Swap64(Load64(m));
    }

    method ReadInt32() returns (x: bv32)
      requires Valid()
      modifies this`readIndex, this`writeIndex
      ensures Valid() && View() == ReadOff32(old(View())) && (x, Contents()) == Read32(old(Contents()))
    {
      ReadOffOk(View());
      x := PeekInt32();
      if x != MINUS_ONE_32 {
        Remove(4);
      }
    }

    method ReadInt64() returns (x: bv64)
      requires Valid()
      modifies this`readIndex, this`writeIndex
      ensures Valid() && View() == ReadOff64(old(View())) && (x, Contents()) == Read64(old(Contents()))
    {
      ReadOffOk(View());
      x := PeekInt64();
      if x != MINUS_ONE_64 {
        Remove(8);
      }
    }

    /** decrease's first branch: the unread bytes slide down, but the indices stay. */
    method SlideDown()
      requires Valid() && reserved <= readIndex
      modifies buff
      ensures Valid() && View() == old(View()).(contents := Slid(old(Contents()), readIndex - reserved))
      ensures Contents() == old(Contents()) <==> Repeats(old(Contents()), readIndex - reserved)
    {
      ghost var block := buff[..];
      var d := readIndex - reserved;
      forall k | reserved <= k < writeIndex - d {
        buff[k] := buff[k + d];
      }
      SlideWindow(block, buff[..], d, readIndex, writeIndex);
    }

    /** decrease's second branch: a smaller block with the unread bytes after the header. */
    method ShrinkBlock(length: nat)
      requires Valid() && 0 < length <= WritableBytes() && caps + reserved - length < MAX_ALLOC
      modifies this
      ensures fresh(buff) && caps == old(caps) + reserved - length
      ensures Valid() && Contents() == old(Contents()) <==> Sound(old(View()))
      ensures Sound(old(View())) ==> View() == Shrunk(old(View()), length)
    {
      var unread := UnreadBytes();
      var newSize := caps + reserved - length;
      buff := Copied(newSize);
      caps := newSize;
      UpdateReadWriteIndex(reserved, reserved + unread, false);
    }

    /** Give back `length` writable bytes, counting the space in front of the unread bytes as
        available too.  As for Grow, a buffer without a header keeps its contents only if nothing
        was read yet.  When only the available bytes suffice the block stays as it is, and the
        contents are overwritten by themselves, `readIndex - reserved` bytes further down. */
    method Decrease(length: nat)
      requires Valid()
      requires if length <= WritableBytes() then caps + reserved - length < MAX_ALLOC
               else reserved + UnreadBytes() <= caps
      modifies this, buff
      ensures buff == old(buff) || fresh(buff)
      ensures Valid() && Contents() == old(Contents()) <==>
              if length <= old(WritableBytes()) then length == 0 || Sound(old(View()))
              else old(AvailableBytes()) < length || Repeats(old(Contents()), old(readIndex) - reserved)
      ensures length == 0 || length > old(WritableBytes()) || Sound(old(View())) ==>
                Valid() && View() == Shrunk(old(View()), length)
    {
      if length == 0 {
        return;
      }
      if WritableBytes() < length && AvailableBytes() >= length {
        SlideDown();
      }
      if WritableBytes() >= length {
        ShrinkBlock(length);
      }
    }

    /** The kernel fills the writable bytes; the code then sets the write index to the capacity. */
    method Fill(data: Bytes)
      requires Valid() && |data| == WritableBytes()
      modifies this`readIndex, this`writeIndex, buff
      ensures Valid() && View() == old(View()).(contents := old(Contents()) + data) && writeIndex == caps
    {
      ghost var before := Contents();
      Store(writeIndex, data);
      UpdateReadWriteIndex(0, caps, false);
      assert Contents() == before + data;
    }

    /** Room is made for the whole spill block of n bytes, of which the string in it is appended. */
    method TakeSpill(n: nat, tail: Bytes) returns (ok: bool)
      requires Valid() && WritableBytes() == 0 && n > 0 && |tail| <= n && CanReallocate(View(), n)
      modifies this, buff
      ensures buff == old(buff) || fresh(buff)
      ensures ok && Valid() && Contents() == old(Contents()) + tail <==> Sound(old(View()))
      ensures Sound(old(View())) ==> View() == Grown(old(View()), n).(contents := old(Contents()) + tail)
    {
      ok := Grow(n);
      if !ok { return; }
      StoreAtEnd(tail);
      assert Valid() ==> |Contents()| == writeIndex - readIndex;
    }

    /** Bytes arrive first in the writable bytes and then in the spill block.  A spill block that is
        full must contain a zero byte for its string to end. */
    predicate SpillFits(data: Bytes)
      reads this
      requires writeIndex <= caps
    {
      |data| > WritableBytes() ==>
        var spill := data[WritableBytes()..];
        && |spill| <= SPILL_SIZE && (|spill| == SPILL_SIZE ==> 0 in spill)
        && 2 * caps + |spill| < MAX_ALLOC
    }

    /** The kernel fills the block with `head` and puts n bytes into the spill block. */
    method FillAndSpill(head: Bytes, n: nat, tail: Bytes) returns (ok: bool)
      requires Valid() && |head| == WritableBytes() && n > 0 && |tail| <= n && 2 * caps + n < MAX_ALLOC
      modifies this, buff
      ensures buff == old(buff) || fresh(buff)
      ensures ok && Valid() && Contents() == old(Contents()) + head + tail <==> Sound(old(View()))
      ensures Sound(old(View())) ==>
                View() == Grown(old(View()).(contents := old(Contents()) + head), n).(contents := old(Contents()) + head + tail)
    {
      Fill(head);
      ok := TakeSpill(n, tail);
    }

    method ReceiveSpilling(data: Bytes) returns (ok: bool)
      requires Valid() && SpillFits(data) && WritableBytes() < |data|
      modifies this, buff
      ensures buff == old(buff) || fresh(buff)
      ensures ok && Valid() && Contents() == old(Contents()) + Delivered(data, old(WritableBytes())) <==> Sound(old(View()))
      ensures Sound(old(View())) ==> View() == Filled(old(View()), data)
    {
      var head, spill := data[..WritableBytes()], data[WritableBytes()..];
      FilledSpill(View(), data, head, spill);
      ok := FillAndSpill(head, |spill|, UpToNul(spill));
    }

    method Receive(data: Bytes) returns (ok: bool)
      requires Valid() && SpillFits(data)
      modifies this, buff
      ensures buff == old(buff) || fresh(buff)
      ensures ok && Valid() && Contents() == old(Contents()) + Delivered(data, old(WritableBytes())) <==>
              AppendOk(old(View()), |data|)
      ensures AppendOk(old(View()), |data|) ==> View() == Filled(old(View()), data)
    {
      if |data| <= WritableBytes() {
        StoreAtEnd(data);
        ok := true;
      } else {
        ok := ReceiveSpilling(data);
      }
    }

    method Readv(answer: Received, retriable: bool) returns (ok: bool, n: int)
      requires Valid() && (answer.Data? ==> SpillFits(answer.bytes))
      modifies this, buff
      ensures buff == old(buff) || fresh(buff)
      ensures n == if answer.Data? && answer.bytes != [] then |answer.bytes|
                   else if retriable then RETRIABLE_ERROR else if answer.Data? then 0 else -1
      ensures n <= 0 ==> ok && Valid() && View() == old(View())
      ensures n > 0 ==>
                (ok && Valid() && Contents() == old(Contents()) + Delivered(answer.bytes, old(WritableBytes())) <==>
                 AppendOk(old(View()), |answer.bytes|))
      ensures n > 0 && AppendOk(old(View()), |answer.bytes|) ==> View() == Filled(old(View()), answer.bytes)
    {
      n := if answer.Data? then |answer.bytes| else -1;
      ok := true;
      if n <= 0 {
        n := if retriable then RETRIABLE_ERROR else n;
        return;
      }
      ok := Receive(answer.bytes);
    }
  }

  // ---------- whole runs ----------

  method PerformAppend(b: ByteBuffer, data: Bytes) returns (seen: Seen)
    requires b.Valid()
    modifies b, b.buff
    ensures (b.buff == old(b.buff) || fresh(b.buff)) && b.Valid()
    ensures (b.View(), seen) == Next(old(b.View()), AppendBytes(data))
  {
    var v := Buf(b.reserved, b.caps, b.readIndex, b.buff[b.readIndex..b.writeIndex]);
    if Allowed(v, AppendBytes(data)) {
      var ok := b.Append(data);
      seen := Nothing;
    } else {
      seen := Refused;
    }
  }

  method PerformShrink(b: ByteBuffer, n: nat) returns (seen: Seen)
    requires b.Valid()
    modifies b, b.buff
    ensures (b.buff == old(b.buff) || fresh(b.buff)) && b.Valid()
    ensures (b.View(), seen) == Next(old(b.View()), Shrink(n))
  {
    var v := Buf(b.reserved, b.caps, b.readIndex, b.buff[b.readIndex..b.writeIndex]);
    if n != 0 && Allowed(v, Shrink(n)) {
      b.Decrease(n);
      seen := Nothing;
    } else {
      seen := if n == 0 then Nothing else Refused;
    }
  }

  method PerformPrepend(b: ByteBuffer, op: Op) returns (seen: Seen)
    requires b.Valid() && (op.Prepend32? || op.Prepend64?)
    modifies b, b.buff
    ensures b.buff == old(b.buff) && b.Valid()
    ensures (b.View(), seen) == Next(old(b.View()), op)
  {
    if b.readIndex < if op.Prepend32? then 4 else 8 {
      return Refused;
    }
    seen := Nothing;
    if op.Prepend32? {
      b.PrependInt32(op.x);
    } else {
      b.PrependInt64(op.y);
    }
  }

  predicate IsInteger(op: Op) { op.Peek4? || op.Peek8? || op.Read4? || op.Read8? }

  method PerformInteger(b: ByteBuffer, op: Op) returns (seen: Seen)
    requires b.Valid() && IsInteger(op)
    modifies b
    ensures b.buff == old(b.buff) && b.Valid()
    ensures (b.View(), seen) == Next(old(b.View()), op)
  {
    if op.Peek4? {
      var x := b.PeekInt32();
      seen := Word32(x);
    } else if op.Peek8? {
      var y := b.PeekInt64();
      seen := Word64(y);
    } else if op.Read4? {
      var x := b.ReadInt32();
      seen := Word32(x);
    } else {
      var y := b.ReadInt64();
      seen := Word64(y);
    }
  }

  method Perform(b: ByteBuffer, op: Op) returns (seen: Seen)
    requires b.Valid()
    modifies b, b.buff
    ensures (b.buff == old(b.buff) || fresh(b.buff)) && b.Valid()
    ensures (b.View(), seen) == Next(old(b.View()), op)
  {
    seen := Nothing;
    match op
    case AppendBytes(data) => seen := PerformAppend(b, data);
    case Prepend32(_) => seen := PerformPrepend(b, op);
    case Prepend64(_) => seen := PerformPrepend(b, op);
    case RemoveBytes(n) => b.Remove(n);
    case ConsumeBytes(n, verify) =>
      var slice := b.Consume(n, verify);
      seen := Slice(slice);
    case ResetAll => b.Reset();
    case Shrink(n) => seen := PerformShrink(b, n);
    case _ => seen := PerformInteger(b, op);
  }

  /** Any run of operations takes the buffer, and shows the caller, what the run of the value
      does; RunRefines, RefusedIff and BudgetedRunIsPlain say what that is. */
  method Run(b: ByteBuffer, ops: seq<Op>) returns (seen: seq<Seen>)
    requires b.Valid()
    modifies b, b.buff
    ensures (b.buff == old(b.buff) || fresh(b.buff)) && b.Valid()
    ensures (b.View(), seen) == Runs(old(b.View()), ops)
    decreases |ops|
  {
    seen := [];
    if ops != [] {
      var first := Perform(b, ops[0]);
      var rest := Run(b, ops[1..]);
      seen := [first] + rest;
    }
  }

  // ---------- round trips through the buffer ----------

  method AppendPieces(b: ByteBuffer, pieces: seq<Bytes>)
    requires b.Valid() && Roomy(b.View(), |Flatten(pieces)|)
    modifies b, b.buff
    ensures (b.buff == old(b.buff) || fresh(b.buff)) && b.Valid()
    ensures b.Contents() == old(b.Contents()) + Flatten(pieces)
    ensures b.readIndex == old(b.readIndex) || b.readIndex == b.reserved
    decreases |pieces|
  {
    if pieces != [] {
      ghost var rest := Flatten(pieces[1..]);
      AppendRoom(b.View(), pieces[0], |rest|);
      var ok := b.Append(pieces[0]);
      AppendPieces(b, pieces[1..]);
      assert old(b.Contents()) + pieces[0] + rest == old(b.Contents()) + (pieces[0] + rest);
    } else {
      assert old(b.Contents()) + [] == old(b.Contents());
    }
  }

  lemma NotMinusOne(x: bv64)
    requires x as nat < MAX_ALLOC
    ensures x != MINUS_ONE_64
  {
  }

  /** A frame is a payload, appended in pieces to an empty buffer, with its length prepended.
      However the buffer has grown or moved on the way, the assert of prependInt64 holds exactly
      when the header has room for the length. */
  method WriteFrame(b: ByteBuffer, pieces: seq<Bytes>, length: bv64) returns (ok: bool)
    requires b.Valid() && b.Contents() == [] && Need(b.View(), |Flatten(pieces)|) < MAX_ALLOC
    modifies b, b.buff
    ensures (b.buff == old(b.buff) || fresh(b.buff)) && b.Valid()
    ensures ok <==> b.reserved >= 8
    ensures ok ==> b.Contents() == Wire64(length) + Flatten(pieces)
  {
    AppendPieces(b, pieces);
    assert [] + Flatten(pieces) == Flatten(pieces);
    ok := 8 <= b.readIndex;
    if ok {
      b.PrependInt64(length);
    }
  }

  method ReadFrame(b: ByteBuffer, ghost length: bv64, ghost sent: Bytes) returns (n: bv64, payload: Bytes)
    requires b.Valid() && b.Contents() == Wire64(length) + sent
    requires length != MINUS_ONE_64 && length as nat == |sent|
    modifies b
    ensures b.Valid() && n == length && payload == sent && b.Contents() == []
  {
    ParseFrame(length, sent);
    n := b.ReadInt64();
    payload := b.Consume(n as nat, false);
  }

  /** Reading the length and consuming that many bytes gives the payload back and leaves nothing. */
  method FrameRoundTrip(b: ByteBuffer, pieces: seq<Bytes>, length: bv64) returns (ok: bool, n: bv64, payload: Bytes)
    requires b.Valid() && b.Contents() == [] && Need(b.View(), |Flatten(pieces)|) < MAX_ALLOC
    requires length as nat == |Flatten(pieces)|
    modifies b, b.buff
    ensures ok <==> b.reserved >= 8
    ensures ok ==> b.Valid() && n == length && payload == Flatten(pieces) && b.Contents() == []
  {
    n, payload := 0, [];
    ok := WriteFrame(b, pieces, length);
    if ok {
      NotMinusOne(length);
      n, payload := ReadFrame(b, length, Flatten(pieces));
    }
  }

  method AppendNext64(b: ByteBuffer, x: bv64, ghost n: nat)
    requires b.Valid() && Roomy(b.View(), 8 + n)
    modifies b, b.buff
    ensures (b.buff == old(b.buff) || fresh(b.buff)) && b.Valid() && Roomy(b.View(), n)
    ensures b.Contents() == old(b.Contents()) + Wire64(x)
  {
    AppendRoom(b.View(), Wire64(x), n);
    var ok := b.AppendInt64(x);
  }

  method AppendInts64(b: ByteBuffer, xs: seq<bv64>)
    requires b.Valid() && Roomy(b.View(), 8 * |xs|)
    modifies b, b.buff
    ensures (b.buff == old(b.buff) || fresh(b.buff)) && b.Valid()
    ensures b.Contents() == old(b.Contents()) + WireAll64(xs)
    decreases |xs|
  {
    if xs != [] {
      AppendNext64(b, xs[0], 8 * |xs[1..]|);
      AppendInts64(b, xs[1..]);
    }
    WireAllTail64(old(b.Contents()), xs);
  }

  method AppendNext32(b: ByteBuffer, x: bv32, ghost n: nat)
    requires b.Valid() && Roomy(b.View(), 4 + n)
    modifies b, b.buff
    ensures (b.buff == old(b.buff) || fresh(b.buff)) && b.Valid() && Roomy(b.View(), n)
    ensures b.Contents() == old(b.Contents()) + Wire32(x)
  {
    AppendRoom(b.View(), Wire32(x), n);
    var ok := b.AppendInt32(x);
  }

  method AppendInts32(b: ByteBuffer, xs: seq<bv32>)
    requires b.Valid() && Roomy(b.View(), 4 * |xs|)
    modifies b, b.buff
    ensures (b.buff == old(b.buff) || fresh(b.buff)) && b.Valid()
    ensures b.Contents() == old(b.Contents()) + WireAll32(xs)
    decreases |xs|
  {
    if xs != [] {
      AppendNext32(b, xs[0], 4 * |xs[1..]|);
      AppendInts32(b, xs[1..]);
    }
    WireAllTail32(old(b.Contents()), xs);
  }

  method ReadInts64(b: ByteBuffer, n: nat) returns (xs: seq<bv64>)
    requires b.Valid()
    modifies b
    ensures b.buff == old(b.buff) && b.Valid()
    ensures (xs, b.Contents()) == ReadAll64(old(b.Contents()), n)
    decreases n
  {
    xs := [];
    if n > 0 {
      var x := b.ReadInt64();
      var rest := ReadInts64(b, n - 1);
      xs := [x] + rest;
    }
  }

  method ReadInts32(b: ByteBuffer, n: nat) returns (xs: seq<bv32>)
    requires b.Valid()
    modifies b
    ensures b.buff == old(b.buff) && b.Valid()
    ensures (xs, b.Contents()) == ReadAll32(old(b.Contents()), n)
    decreases n
  {
    xs := [];
    if n > 0 {
      var x := b.ReadInt32();
      var rest := ReadInts32(b, n - 1);
      xs := [x] + rest;
    }
  }

  /** A list of integers appended to an empty buffer is read back whole, leaving nothing, exactly
      when none of them is -1. */
  method RoundTripInts64(b: ByteBuffer, xs: seq<bv64>) returns (ys: seq<bv64>)
    requires b.Valid() && b.Contents() == [] && Need(b.View(), 8 * |xs|) < MAX_ALLOC
    modifies b, b.buff
    ensures b.Valid() && (ys == xs && b.Contents() == [] <==> MINUS_ONE_64 !in xs)
  {
    AppendInts64(b, xs);
    assert [] + WireAll64(xs) == WireAll64(xs);
    RoundTrip64Iff(xs);
    ys := ReadInts64(b, |xs|);
  }

  method RoundTripInts32(b: ByteBuffer, xs: seq<bv32>) returns (ys: seq<bv32>)
    requires b.Valid() && b.Contents() == [] && Need(b.View(), 4 * |xs|) < MAX_ALLOC
    modifies b, b.buff
    ensures b.Valid() && (ys == xs && b.Contents() == [] <==> MINUS_ONE_32 !in xs)
  {
    AppendInts32(b, xs);
    assert [] + WireAll32(xs) == WireAll32(xs);
    RoundTrip32Iff(xs);
    ys := ReadInts32(b, |xs|);
  }

  // ---------- where the code fails ----------

  /** Without a header: append, read some, and append past the block.  The contents are lost. */
  method HeaderlessAppendFails() returns (b: ByteBuffer, ok: bool)
    ensures !(ok && b.Valid() && b.Contents() == [3, 4, 5])
  {
    b := new ByteBuffer(0, 4);
    ok := b.Append([1, 2, 3, 4]);
    b.Remove(2);
    assert b.Contents() == [3, 4];
    ok := b.Append([5]);
    assert [3, 4] + [5] == [3, 4, 5];
  }

  /** The same after a decrease of the room that is left. */
  method HeaderlessDecreaseFails() returns (b: ByteBuffer)
    ensures !(b.Valid() && b.Contents() == [3, 4])
  {
    b := new ByteBuffer(0, 8);
    var ok := b.Append([1, 2, 3, 4]);
    b.Remove(2);
    assert b.Contents() == [3, 4];
    b.Decrease(1);
  }

  /** Nothing was read and there is room: an explicit grow trips its assert. */
  method NeedlessGrowFails() returns (b: ByteBuffer, ok: bool)
    ensures b.reserved == 8 && !ok
  {
    b := new ByteBuffer(8, 1024);
    ok := b.Grow(1);
  }

  /** A decrease beyond the writable bytes after a partial read shows bytes twice. */
  method DecreaseOverwritesContents() returns (b: ByteBuffer)
    ensures b.Valid() && b.reserved == 8 && b.Contents() == [3, 3]
  {
    b := new ByteBuffer(8, 3);
    var ok := b.Append([1, 2, 3]);
    b.Remove(1);
    assert b.Contents() == [2, 3];
    b.Decrease(1);
  }

  /** The integer -1 is reported but never consumed: every further read finds it again. */
  method MinusOneStays() returns (b: ByteBuffer, ys: seq<bv64>)
    ensures b.Valid() && ys == [MINUS_ONE_64, MINUS_ONE_64] && b.Contents() == Wire64(MINUS_ONE_64)
  {
    b := new ByteBuffer(8, 1024);
    var ok := b.AppendInt64(MINUS_ONE_64);
    assert b.Contents() == Wire64(MINUS_ONE_64);
    ParseWire(MINUS_ONE_64, 0, []);
    assert Wire64(MINUS_ONE_64) + [] == Wire64(MINUS_ONE_64);
    var x := b.ReadInt64();
    var y := b.ReadInt64();
    ys := [x, y];
  }

  method MinusOneStays32() returns (b: ByteBuffer, ys: seq<bv32>)
    ensures b.Valid() && ys == [MINUS_ONE_32, MINUS_ONE_32] && b.Contents() == Wire32(MINUS_ONE_32)
  {
    b := new ByteBuffer(8, 1024);
    var ok := b.AppendInt32(MINUS_ONE_32);
    assert b.Contents() == Wire32(MINUS_ONE_32);
    ParseWire(0, MINUS_ONE_32, []);
    assert Wire32(MINUS_ONE_32) + [] == Wire32(MINUS_ONE_32);
    var x := b.ReadInt32();
    var y := b.ReadInt32();
    ys := [x, y];
  }

  /** Four bytes arrive at one writable byte: the third is a zero, so the last two are lost. */
  method SpillIsCut() returns (b: ByteBuffer, n: int)
    ensures b.Valid() && n == 4 && b.Contents() == [1, 2]
  {
    b := new ByteBuffer(8, 1);
    var ok;
    assert [1, 2, 0, 3][1..] == [2, 0, 3] && UpToNul([2, 0, 3]) == [2];
    ok, n := b.Readv(Data([1, 2, 0, 3]), false);
    assert [] + Delivered([1, 2, 0, 3], 1) == [1, 2];
  }
}
