// The byte buffer as a value: its header size, its capacity, its read index and its unread
// bytes.  Growth is deterministic, so whole runs are functions of the first state; they are
// compared with the same operations on a plain sequence of bytes.

module BufferModel {
  import opened Wire

  /** size_t arithmetic wraps here; no array is as large as MAX_ALLOC. */
  const SIZE_MODULUS: nat := 0x1_0000_0000_0000_0000
  const MAX_ALLOC: nat := 0x8000_0000_0000_0000

  datatype Buf = Buf(reserved: nat, caps: nat, readIndex: nat, contents: Bytes)

  predicate Ok(v: Buf) {
    && v.reserved <= v.caps < MAX_ALLOC
    && v.readIndex + |v.contents| <= v.caps
    && (v.contents == [] ==> v.readIndex == v.reserved)
  }

  function Writable(v: Buf): int { v.caps - v.readIndex - |v.contents| }

  /** What would be writable if the unread bytes started right after the header. */
  function Available(v: Buf): int { v.caps - v.reserved - |v.contents| }

  /** Setting the read index to the header size works: that is not zero, or nothing was read. */
  predicate Sound(v: Buf) { v.reserved > 0 || v.readIndex == 0 }

  // ---------- one operation ----------

  /** grow takes its first branch: compaction would not make enough room. */
  predicate MustReallocate(v: Buf, n: nat) { v.readIndex + Writable(v) < v.reserved + n }

  predicate CanReallocate(v: Buf, n: nat) { MustReallocate(v, n) ==> 2 * v.caps + n < MAX_ALLOC }

  /** grow keeps the contents and trips no assert: compaction is for buffers that were read from. */
  predicate GrowOk(v: Buf, n: nat) {
    if MustReallocate(v, n) then Sound(v) else 0 < v.reserved < v.readIndex
  }

  function Grown(v: Buf, n: nat): Buf {
    v.(caps := if MustReallocate(v, n) then 2 * v.caps + n else v.caps, readIndex := v.reserved)
  }

  predicate AppendOk(v: Buf, n: nat) { n <= Writable(v) || Sound(v) }

  function Appended(v: Buf, data: Bytes): Buf {
    var g := if Writable(v) < |data| then Grown(v, |data|) else v;
    g.(contents := v.contents + data)
  }

  function Prepended(v: Buf, data: Bytes): Buf
    requires |data| <= v.readIndex
  {
    v.(readIndex := v.readIndex - |data|, contents := data + v.contents)
  }

  function Removed(v: Buf, n: nat): Buf {
    if n < |v.contents| then v.(readIndex := v.readIndex + n, contents := v.contents[n..])
    else v.(readIndex := v.reserved, contents := [])
  }

  function Dropped(s: Bytes, n: nat): Bytes { if n < |s| then s[n..] else [] }

  function Taken(s: Bytes, n: nat): Bytes { if n < |s| then s[..n] else s }

  /** A sequence splits into the first n bytes, or all of them, and the rest. */
  lemma TakenDropped(s: Bytes, n: nat)
    ensures Taken(s, n) + Dropped(s, n) == s && |Taken(s, n)| == if n < |s| then n else |s|
  {
  }

  /** A block seen through a window that stays while the bytes below it move down by d. */
  function Slid(s: Bytes, d: nat): (r: Bytes)
    ensures |r| == |s|
  {
    seq(|s|, i requires 0 <= i < |s| => if i + d < |s| then s[i + d] else s[i])
  }

  /** Any two bytes at distance d are equal. */
  ghost predicate Repeats(s: Bytes, d: int) { forall i, j :: 0 <= i < j < |s| && j == i + d ==> s[i] == s[j] }

  lemma SlidIff(s: Bytes, d: nat)
    ensures Slid(s, d) == s <==> Repeats(s, d)
  {
    if Slid(s, d) == s {
      forall i, j | 0 <= i < j < |s| && j == i + d ensures s[i] == s[j] {
        assert Slid(s, d)[i] == s[j];
      }
    }
  }

  /** What bytes r to w of a block show after they were copied down by d. */
  lemma SlideWindow(block: Bytes, after: Bytes, d: nat, r: nat, w: nat)
    requires d <= r <= w <= |block| == |after|
    requires forall k, m :: r - d <= k < w - d && m == k + d ==> after[k] == block[m]
    requires forall k :: 0 <= k < |after| && !(r - d <= k < w - d) ==> after[k] == block[k]
    ensures after[r..w] == Slid(block[r..w], d)
    ensures after[r..w] == block[r..w] <==> Repeats(block[r..w], d)
  {
    var c := block[r..w];
    forall j | 0 <= j < |c| ensures after[r..w][j] == Slid(c, d)[j] {
      var k := r + j;
      assert after[r..w][j] == after[k] && c[j] == block[k];
      if j + d < |c| { assert c[j + d] == block[k + d]; }
    }
    SlidIff(c, d);
  }

  /** decrease: a smaller block, or the slide without the indices, or nothing. */
  function Shrunk(v: Buf, n: nat): Buf {
    if n == 0 then v
    else if n <= Writable(v) then v.(caps := v.caps + v.reserved - n, readIndex := v.reserved)
    else if n <= Available(v) && v.reserved <= v.readIndex then
      v.(contents := Slid(v.contents, v.readIndex - v.reserved))
    else v
  }

  /** What a C string function sees of a block: the bytes before the first NUL. */
  function UpToNul(s: Bytes): (r: Bytes)
    ensures |r| <= |s| && r == s[..|r|]
    ensures |r| < |s| ==> s[|r|] == 0
    ensures 0 !in r
  {
    if s == [] || s[0] == 0 then [] else [s[0]] + UpToNul(s[1..])
  }

  function Delivered(incoming: Bytes, writable: nat): Bytes {
    if |incoming| <= writable then incoming else incoming[..writable] + UpToNul(incoming[writable..])
  }

  /** A read loses nothing exactly when the part that does not fit contains no zero byte. */
  lemma ReadvDeliversAllIff(incoming: Bytes, writable: nat)
    ensures Delivered(incoming, writable) == incoming <==>
            |incoming| <= writable || 0 !in incoming[writable..]
  {
    if |incoming| > writable {
      var spill := incoming[writable..];
      assert incoming == incoming[..writable] + spill;
      if |UpToNul(spill)| < |spill| {
        assert spill[|UpToNul(spill)|] in spill;
      }
    }
  }

  /** What is delivered is the longest beginning that has no zero byte past the writable part: it
      ends at the end of what arrived, or at a zero byte. */
  lemma DeliveredIsLongest(incoming: Bytes, writable: nat)
    ensures var r := Delivered(incoming, writable);
            && r <= incoming && (|r| >= writable || r == incoming)
            && (forall i :: writable <= i < |r| && |incoming| > writable ==> r[i] != 0)
            && (|r| < |incoming| ==> incoming[|r|] == 0)
  {
    if |incoming| > writable {
      var spill := incoming[writable..];
      var r, t := Delivered(incoming, writable), UpToNul(spill);
      assert incoming == incoming[..writable] + spill;
      assert forall i :: writable <= i < |r| ==> r[i] == t[i - writable] && t[i - writable] in t;
      assert |t| < |spill| ==> incoming[|r|] == spill[|t|];
    }
  }

  /** readv: the writable bytes are filled, and the spill is appended after growing for all of it. */
  function Filled(v: Buf, data: Bytes): Buf {
    if |data| <= Writable(v) || Writable(v) < 0 then v.(contents := v.contents + data)
    else
      var w := Writable(v);
      var g := Grown(v.(contents := v.contents + data[..w]), |data| - w);
      g.(contents := v.contents + Delivered(data, w))
  }

  lemma Associative(a: Bytes, b: Bytes, c: Bytes)
    ensures a + b + c == a + (b + c)
  {
  }

  lemma FilledSpill(v: Buf, data: Bytes, head: Bytes, spill: Bytes)
    requires 0 <= Writable(v) == |head| < |data| && head == data[..|head|] && spill == data[|head|..]
    ensures Filled(v, data) ==
            Grown(v.(contents := v.contents + head), |spill|).(contents := v.contents + head + UpToNul(spill))
    ensures v.contents + head + UpToNul(spill) == v.contents + Delivered(data, |head|)
  {
    assert Delivered(data, |head|) == head + UpToNul(spill);
    Associative(v.contents, head, UpToNul(spill));
  }

  // ---------- runs ----------

  datatype Op =
    | AppendBytes(data: Bytes)
    | Prepend32(x: bv32)
    | Prepend64(y: bv64)
    | RemoveBytes(n: nat)
    | ConsumeBytes(n: nat, verify: bool)
    | Peek4
    | Peek8
    | Read4
    | Read8
    | ResetAll
    | Shrink(n: nat)

  /** What the caller of an operation gets to see; Refused: a condition of the code was not met. */
  datatype Seen = Nothing | Refused | Slice(data: Bytes) | Word32(x: bv32) | Word64(y: bv64)

  /** What the code asks of its callers: memory for growing, room in front for a prepend, and
      a decrease that does not slide the contents over themselves. */
  predicate Allowed(v: Buf, op: Op) {
    match op
    case AppendBytes(data) => |data| <= Writable(v) || (Sound(v) && CanReallocate(v, |data|))
    case Prepend32(_) => 4 <= v.readIndex
    case Prepend64(_) => 8 <= v.readIndex
    case Shrink(n) =>
      n == 0
      || (n <= Writable(v) && Sound(v) && v.caps + v.reserved - n < MAX_ALLOC)
      || (n > Writable(v) && n > Available(v) >= 0)
    case _ => true
  }

  /** What readInt32 and readInt64 leave. */
  function ReadOff32(v: Buf): Buf { if Read32(v.contents).0 == MINUS_ONE_32 then v else Removed(v, 4) }

  function ReadOff64(v: Buf): Buf { if Read64(v.contents).0 == MINUS_ONE_64 then v else Removed(v, 8) }

  function Next(v: Buf, op: Op): (Buf, Seen) {
    if !Allowed(v, op) then (v, Refused)
    else
      match op
      case AppendBytes(data) => (Appended(v, data), Nothing)
      case Prepend32(x) => (Prepended(v, Wire32(x)), Nothing)
      case Prepend64(y) => (Prepended(v, Wire64(y)), Nothing)
      case RemoveBytes(n) => (Removed(v, n), Nothing)
      case ConsumeBytes(n, verify) =>
        if verify && n > |v.contents| then (v, Slice([])) else (Removed(v, n), Slice(Taken(v.contents, n)))
      case Peek4 => (v, Word32(Read32(v.contents).0))
      case Peek8 => (v, Word64(Read64(v.contents).0))
      case Read4 => (ReadOff32(v), Word32(Read32(v.contents).0))
      case Read8 => (ReadOff64(v), Word64(Read64(v.contents).0))
      case ResetAll => (Removed(v, |v.contents|), Nothing)
      case Shrink(n) => (Shrunk(v, n), Nothing)
  }

  function Runs(v: Buf, ops: seq<Op>): (Buf, seq<Seen>)
    decreases |ops|
  {
    if ops == [] then (v, [])
    else
      var (v1, seen) := Next(v, ops[0]);
      var (v2, rest) := Runs(v1, ops[1..]);
      (v2, [seen] + rest)
  }

  // ---------- the reference: a plain sequence of bytes ----------

  /** Written out on its own terms: prefixes and rests of s, and integers in network byte order. */
  function PlainNext(s: Bytes, op: Op): (Bytes, Seen) {
    match op
    case AppendBytes(data) => (s + data, Nothing)
    case Prepend32(x) => (BigBytes32(x) + s, Nothing)
    case Prepend64(y) => (BigBytes64(y) + s, Nothing)
    case RemoveBytes(n) => (if n < |s| then s[n..] else [], Nothing)
    case ConsumeBytes(n, verify) =>
      if n <= |s| then (s[n..], Slice(s[..n])) else if verify then (s, Slice([])) else ([], Slice(s))
    case Peek4 => (s, Word32(if |s| >= 4 then Big32(s) else MINUS_ONE_32))
    case Peek8 => (s, Word64(if |s| >= 8 then Big64(s) else MINUS_ONE_64))
    case Read4 =>
      if |s| >= 4 && Big32(s) != MINUS_ONE_32 then (s[4..], Word32(Big32(s))) else (s, Word32(MINUS_ONE_32))
    case Read8 =>
      if |s| >= 8 && Big64(s) != MINUS_ONE_64 then (s[8..], Word64(Big64(s))) else (s, Word64(MINUS_ONE_64))
    case ResetAll => ([], Nothing)
    case Shrink(_) => (s, Nothing)
  }

  function PlainRuns(s: Bytes, ops: seq<Op>): (Bytes, seq<Seen>)
    decreases |ops|
  {
    if ops == [] then (s, [])
    else
      var (s1, seen) := PlainNext(s, ops[0]);
      var (s2, rest) := PlainRuns(s1, ops[1..]);
      (s2, [seen] + rest)
  }

  /** The operations of a run that are not refused. */
  function Performed(v: Buf, ops: seq<Op>): seq<Op>
    decreases |ops|
  {
    if ops == [] then []
    else (if Allowed(v, ops[0]) then [ops[0]] else []) + Performed(Next(v, ops[0]).0, ops[1..])
  }

  function Answers(seen: seq<Seen>): seq<Seen> {
    if seen == [] then [] else (if seen[0] == Refused then [] else [seen[0]]) + Answers(seen[1..])
  }

  lemma AppendedOk(v: Buf, data: Bytes)
    requires Ok(v) && Allowed(v, AppendBytes(data))
    ensures Ok(Appended(v, data))
  {
  }

  lemma PrependedOk(v: Buf, data: Bytes)
    requires Ok(v) && 0 < |data| <= v.readIndex
    ensures Ok(Prepended(v, data))
  {
  }

  lemma RemovedOk(v: Buf, n: nat)
    requires Ok(v)
    ensures Ok(Removed(v, n)) && Removed(v, n).contents == Dropped(v.contents, n)
  {
  }

  lemma ShrunkOk(v: Buf, n: nat)
    requires Ok(v) && Allowed(v, Shrink(n))
    ensures Ok(Shrunk(v, n)) && Shrunk(v, n).contents == v.contents
  {
  }

  lemma ReadOffOk(v: Buf)
    requires Ok(v)
    ensures Ok(ReadOff32(v)) && ReadOff32(v).contents == Read32(v.contents).1
    ensures Ok(ReadOff64(v)) && ReadOff64(v).contents == Read64(v.contents).1
  {
    RemovedOk(v, 4);
    RemovedOk(v, 8);
  }

  lemma PrependRefines(v: Buf, op: Op)
    requires Ok(v) && Allowed(v, op) && (op.Prepend32? || op.Prepend64?)
    ensures Ok(Next(v, op).0) && (Next(v, op).0.contents, Next(v, op).1) == PlainNext(v.contents, op)
  {
    if op.Prepend32? {
      Wire32IsBigEndian(op.x);
      PrependedOk(v, Wire32(op.x));
    } else {
      WireIsBigEndian(op.y);
      PrependedOk(v, Wire64(op.y));
    }
  }

  lemma ConsumeRefines(v: Buf, op: Op)
    requires Ok(v) && op.ConsumeBytes?
    ensures Ok(Next(v, op).0) && (Next(v, op).0.contents, Next(v, op).1) == PlainNext(v.contents, op)
  {
    RemovedOk(v, op.n);
    if op.n == |v.contents| {
      assert v.contents[op.n..] == [] && v.contents[..op.n] == v.contents;
    }
  }

  lemma IntegerRefines(v: Buf, op: Op)
    requires Ok(v) && (op.Peek4? || op.Peek8? || op.Read4? || op.Read8?)
    ensures Ok(Next(v, op).0) && (Next(v, op).0.contents, Next(v, op).1) == PlainNext(v.contents, op)
  {
    ReadOffOk(v);
    if op.Peek4? || op.Read4? { ReadIsBigEndian32(v.contents); } else { ReadIsBigEndian64(v.contents); }
  }

  /** An operation that is not refused does to the contents, and shows its caller, what it does
      to and shows of a plain sequence. */
  lemma NextRefines(v: Buf, op: Op)
    requires Ok(v) && Allowed(v, op)
    ensures Ok(Next(v, op).0) && Next(v, op).0.reserved == v.reserved
    ensures (Next(v, op).0.contents, Next(v, op).1) == PlainNext(v.contents, op)
    ensures Next(v, op).1 != Refused
  {
    match op
    case AppendBytes(data) => AppendedOk(v, data);
    case Prepend32(_) => PrependRefines(v, op);
    case Prepend64(_) => PrependRefines(v, op);
    case RemoveBytes(n) => RemovedOk(v, n);
    case ConsumeBytes(_, _) => ConsumeRefines(v, op);
    case ResetAll => RemovedOk(v, |v.contents|);
    case Shrink(n) => ShrunkOk(v, n);
    case _ => IntegerRefines(v, op);
  }

  /** A decrease within the writable bytes is carried out: the block shrinks by the length, less the
      header that is added, and the unread bytes start right after the header. */
  lemma DecreaseCarriedOut(v: Buf, n: nat)
    requires Ok(v) && v.reserved > 0 && v.caps + v.reserved < MAX_ALLOC
    requires 0 < n <= v.caps - v.readIndex - |v.contents|
    ensures Next(v, Shrink(n)) == (Buf(v.reserved, v.caps + v.reserved - n, v.reserved, v.contents), Nothing)
  {
  }

  /** Refinement over whole runs: the contents at the end, and every answer on the way, are those
      of a plain sequence on which the operations that were not refused are run. */
  lemma {:induction false} RunRefines(v: Buf, ops: seq<Op>)
    requires Ok(v)
    ensures var (v', seen) := Runs(v, ops);
            Ok(v') && v'.reserved == v.reserved && |seen| == |ops| &&
            (v'.contents, Answers(seen)) == PlainRuns(v.contents, Performed(v, ops))
    decreases |ops|
  {
    if ops != [] {
      if Allowed(v, ops[0]) { NextRefines(v, ops[0]); }
      var v1 := Next(v, ops[0]).0;
      RunRefines(v1, ops[1..]);
      var (_, seen) := Runs(v1, ops[1..]);
      assert ([Next(v, ops[0]).1] + seen)[1..] == seen;
      var rest := Performed(v1, ops[1..]);
      if Allowed(v, ops[0]) {
        assert Performed(v, ops) == [ops[0]] + rest && ([ops[0]] + rest)[1..] == rest;
      } else {
        assert Performed(v, ops) == rest && [] + Answers(seen) == Answers(seen);
      }
    }
  }

  /** An operation is refused exactly when its condition fails in the state the run has reached. */
  lemma {:induction false} RefusedIff(v: Buf, ops: seq<Op>, i: nat)
    requires Ok(v) && i < |ops|
    ensures |Runs(v, ops).1| == |ops|
    ensures Runs(v, ops).1[i] == Refused <==> !Allowed(Runs(v, ops[..i]).0, ops[i])
    decreases |ops|
  {
    RunRefines(v, ops);
    if Allowed(v, ops[0]) { NextRefines(v, ops[0]); }
    if i > 0 {
      RefusedIff(Next(v, ops[0]).0, ops[1..], i - 1);
      assert ops[..i][1..] == ops[1..][..i - 1];
    }
  }

  // ---------- runs that are never refused ----------

  function Prepends(op: Op): nat { if op.Prepend32? then 4 else if op.Prepend64? then 8 else 0 }

  function Writes(op: Op): nat { if op.AppendBytes? then |op.data| else Prepends(op) }

  function AllPrepends(ops: seq<Op>): nat { if ops == [] then 0 else Prepends(ops[0]) + AllPrepends(ops[1..]) }

  function AllWrites(ops: seq<Op>): nat { if ops == [] then 0 else Writes(ops[0]) + AllWrites(ops[1..]) }

  /** The capacity that n further bytes may need. */
  function Need(v: Buf, n: nat): nat { 2 * v.reserved + 3 * (|v.contents| + n) }

  /** n further bytes can be appended, whatever growth that takes. */
  predicate Roomy(v: Buf, n: nat) { Sound(v) && Need(v, n) < MAX_ALLOC }

  function Max(a: nat, b: nat): nat { if a < b then b else a }

  /** Reallocation happens only when the block is small compared with what it is to hold. */
  lemma AppendRoom(v: Buf, data: Bytes, n: nat)
    requires Ok(v) && Roomy(v, |data| + n)
    ensures Allowed(v, AppendBytes(data)) && CanReallocate(v, |data|)
    ensures var v' := Appended(v, data);
            && Ok(v') && Roomy(v', n) && v'.reserved == v.reserved && Need(v', n) == Need(v, |data| + n)
            && v'.caps <= Max(v.caps, Need(v, |data| + n))
            && (v'.readIndex == v.readIndex || v'.readIndex == v.reserved)
  {
    AppendedOk(v, data);
  }

  lemma RemovedBudget(v: Buf, n: nat)
    requires Ok(v)
    ensures var v' := Removed(v, n);
            && (v'.readIndex >= v.readIndex || v'.readIndex == v'.reserved)
            && |v'.contents| <= |v.contents| && v'.caps == v.caps && v'.reserved == v.reserved
  {
  }

  /** Decrease adds the header to the block before it takes the length away. */
  function Slack(v: Buf, op: Op): nat { if op.Shrink? then v.reserved else 0 }

  function AllSlack(v: Buf, ops: seq<Op>): nat { if ops == [] then 0 else Slack(v, ops[0]) + AllSlack(v, ops[1..]) }

  lemma {:induction false} SameSlack(v: Buf, v': Buf, ops: seq<Op>)
    requires v.reserved == v'.reserved
    ensures AllSlack(v, ops) == AllSlack(v', ops)
  {
    if ops != [] { SameSlack(v, v', ops[1..]); }
  }

  /** The prepends fit the header, and what is in front of the unread bytes. */
  predicate PrependRoom(v: Buf, n: nat) { n <= v.readIndex && n <= v.reserved }

  lemma ShrunkBudget(v: Buf, n: nat)
    requires Ok(v) && Allowed(v, Shrink(n))
    ensures var v' := Shrunk(v, n);
            && (v'.readIndex == v.readIndex || v'.readIndex == v'.reserved)
            && |v'.contents| == |v.contents| && v'.caps <= v.caps + v.reserved && v'.reserved == v.reserved
  {
  }

  lemma PrependedBudget(v: Buf, data: Bytes, prepends: nat, writes: nat)
    requires PrependRoom(v, |data| + prepends)
    ensures var v' := Prepended(v, data);
            && PrependRoom(v', prepends) && Need(v', writes) == Need(v, |data| + writes)
            && v'.caps == v.caps && v'.reserved == v.reserved
  {
  }

  /** Room for prepends of so many bytes in all, and memory for so many bytes written in all. */
  predicate HasBudget(v: Buf, prepends: nat, writes: nat) {
    Ok(v) && v.reserved > 0 && PrependRoom(v, prepends) && Need(v, writes) < MAX_ALLOC
  }

  /** The operation is carried out, leaves the rest of the budget, and keeps the block small. */
  predicate KeepsBudget(v: Buf, op: Op, prepends: nat, writes: nat) {
    && (op.Shrink? || Allowed(v, op))
    && var v' := Next(v, op).0;
       && PrependRoom(v', prepends) && Need(v', writes) <= Need(v, Writes(op) + writes)
       && v'.caps <= Max(v.caps, Need(v, Writes(op) + writes)) + Slack(v, op)
  }

  lemma WriteBudget(v: Buf, op: Op, prepends: nat, writes: nat)
    requires HasBudget(v, Prepends(op) + prepends, Writes(op) + writes)
    requires op.AppendBytes? || op.Prepend32? || op.Prepend64?
    ensures KeepsBudget(v, op, prepends, writes)
  {
    if op.AppendBytes? {
      AppendRoom(v, op.data, writes);
    } else {
      PrependedBudget(v, if op.Prepend32? then Wire32(op.x) else Wire64(op.y), prepends, writes);
    }
  }

  lemma RemovalBudget(v: Buf, op: Op, prepends: nat, writes: nat)
    requires HasBudget(v, Prepends(op) + prepends, Writes(op) + writes)
    requires op.RemoveBytes? || op.ConsumeBytes? || op.ResetAll?
    ensures KeepsBudget(v, op, prepends, writes)
  {
    RemovedBudget(v, if op.ResetAll? then |v.contents| else op.n);
  }

  lemma IntegerBudget(v: Buf, op: Op, prepends: nat, writes: nat)
    requires HasBudget(v, Prepends(op) + prepends, Writes(op) + writes)
    requires op.Peek4? || op.Peek8? || op.Read4? || op.Read8?
    ensures KeepsBudget(v, op, prepends, writes)
  {
    RemovedBudget(v, 4);
    RemovedBudget(v, 8);
  }

  lemma DecreaseBudget(v: Buf, op: Op, prepends: nat, writes: nat)
    requires HasBudget(v, Prepends(op) + prepends, Writes(op) + writes)
    requires op.Shrink?
    ensures KeepsBudget(v, op, prepends, writes)
  {
    if Allowed(v, op) { ShrunkBudget(v, op.n); }
  }

  lemma NextBudget(v: Buf, op: Op, prepends: nat, writes: nat)
    requires HasBudget(v, Prepends(op) + prepends, Writes(op) + writes)
    ensures KeepsBudget(v, op, prepends, writes)
  {
    if op.Shrink? {
      DecreaseBudget(v, op, prepends, writes);
    } else if op.AppendBytes? || op.Prepend32? || op.Prepend64? {
      WriteBudget(v, op, prepends, writes);
    } else if op.RemoveBytes? || op.ConsumeBytes? || op.ResetAll? {
      RemovalBudget(v, op, prepends, writes);
    } else {
      IntegerBudget(v, op, prepends, writes);
    }
  }

  /** The answers agree, except that a decrease may be refused. */
  predicate SameAnswers(ops: seq<Op>, seen: seq<Seen>, plain: seq<Seen>) {
    && |seen| == |ops| == |plain|
    && forall i :: 0 <= i < |ops| ==> seen[i] == plain[i] || (ops[i].Shrink? && seen[i] == Refused)
  }

  lemma SameAnswersFirst(ops: seq<Op>, a: Seen, seen: seq<Seen>, b: Seen, plain: seq<Seen>)
    requires ops != [] && SameAnswers(ops[1..], seen, plain)
    requires a == b || (ops[0].Shrink? && a == Refused)
    ensures SameAnswers(ops, [a] + seen, [b] + plain)
  {
  }

  lemma ShrinkIsPlain(v: Buf, n: nat)
    requires Ok(v)
    ensures var v' := Next(v, Shrink(n)).0;
            Ok(v') && v'.reserved == v.reserved && v'.contents == PlainNext(v.contents, Shrink(n)).0
  {
    if Allowed(v, Shrink(n)) { NextRefines(v, Shrink(n)); }
  }

  lemma NextIsPlain(v: Buf, op: Op)
    requires Ok(v) && (op.Shrink? || Allowed(v, op))
    ensures var (v', seen) := Next(v, op);
            && Ok(v') && v'.reserved == v.reserved && v'.contents == PlainNext(v.contents, op).0
            && (seen == PlainNext(v.contents, op).1 || (op.Shrink? && seen == Refused))
  {
    if Allowed(v, op) { NextRefines(v, op); } else { ShrinkIsPlain(v, op.n); }
  }

  /** A run whose prepends together fit the header and whose bytes together fit memory is never
      refused, but for decreases that would do harm: without any condition on the states in between,
      the buffer is a plain sequence of bytes, and its capacity stays linear in what is written. */
  lemma {:induction false} BudgetedRunIsPlain(v: Buf, ops: seq<Op>)
    requires HasBudget(v, AllPrepends(ops), AllWrites(ops))
    ensures var (v', seen) := Runs(v, ops);
            && v'.contents == PlainRuns(v.contents, ops).0
            && SameAnswers(ops, seen, PlainRuns(v.contents, ops).1)
            && v'.caps <= Max(v.caps, Need(v, AllWrites(ops))) + AllSlack(v, ops)
    decreases |ops|
  {
    if ops != [] {
      var v1 := Next(v, ops[0]).0;
      NextBudget(v, ops[0], AllPrepends(ops[1..]), AllWrites(ops[1..]));
      NextIsPlain(v, ops[0]);
      SameSlack(v, v1, ops[1..]);
      BudgetedRunIsPlain(v1, ops[1..]);
      var (s1, answer) := PlainNext(v.contents, ops[0]);
      SameAnswersFirst(ops, Next(v, ops[0]).1, Runs(v1, ops[1..]).1, answer, PlainRuns(s1, ops[1..]).1);
    }
  }

  // ---------- pieces of a payload ----------

  function Flatten(pieces: seq<Bytes>): Bytes {
    if pieces == [] then [] else pieces[0] + Flatten(pieces[1..])
  }

  lemma ParseFrame(length: bv64, payload: Bytes)
    requires length != MINUS_ONE_64
    ensures Read64(Wire64(length) + payload) == (length, payload)
  {
    ParseWire(length, 0, payload);
    assert (Wire64(length) + payload)[8..] == payload;
  }
}
