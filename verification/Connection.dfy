// The output path of a connection: direct sends, the retransmission buffer and the channel's
// write interest, against a kernel that accepts as much as it likes each time.

module Connections {
  import opened Wire
  import opened BufferModel
  import opened ByteBuffers

  // ---------- the protocol ----------

  /** What `::send` answers.  Blocked: -1 with a retriable errno.  Broken: -1 with another one. */
  datatype Kernel = Accepted(n: nat) | Blocked | Broken

  /** `completions` holds, for each point where the write-complete callback is called, the bytes the
      kernel had accepted and those that had been submitted. */
  datatype Out = Out(
    open: bool,
    accepted: Bytes,
    buffered: Bytes,
    submitted: Bytes,
    writable: bool,
    completions: seq<(Bytes, Bytes)>
  )

  function Init(): Out { Out(true, [], [], [], false, []) }

  function Complete(o: Out): Out {
    o.(completions := o.completions + [(o.accepted, o.submitted)])
  }

  function CloseStep(o: Out): Out { o.(open := false, writable := false) }

  /** send hands the data to the kernel at once; otherwise it queues behind what is buffered. */
  predicate TriesDirect(o: Out, data: Bytes) { data != [] && !o.writable && o.buffered == [] }

  /** A closed channel has no event left to enable, so a send may not leave anything to buffer. */
  predicate SendDefined(o: Out, data: Bytes, k: Kernel) {
    if TriesDirect(o, data) then
      match k
      case Accepted(n) => n <= |data| && (o.open || n == |data|)
      case Blocked => o.open
      case Broken => false
    else data == [] || o.open
  }

  /** Bytes from `data + nwrite` on.  After a refused direct send nwrite is -1: the byte in memory
      before the data comes first and the last byte of the data is missing. */
  function Remaining(data: Bytes, k: Kernel, before: Byte): Bytes
    requires data != [] && (k.Accepted? ==> k.n <= |data|)
  {
    if k.Accepted? then data[k.n..] else [before] + data[..|data| - 1]
  }

  /** send, run on the loop thread. */
  function SendStep(o: Out, data: Bytes, k: Kernel, before: Byte): Out
    requires SendDefined(o, data, k)
  {
    var s := o.(submitted := o.submitted + data);
    if data == [] then o
    else if TriesDirect(o, data) then
      var a := if k.Accepted? then s.(accepted := o.accepted + data[..k.n]) else s;
      if k == Accepted(|data|) then Complete(a)
      else a.(buffered := Remaining(data, k, before), writable := true)
    else s.(buffered := o.buffered + data, writable := true)
  }

  /** netFdWriteHandle: the kernel takes n > 0 bytes; or a retriable error changes nothing; or any
      other error closes the connection.  A count of zero is one of the two errors, by what errno
      happens to hold. */
  function WriteStep(o: Out, k: Kernel): Out
    requires k.Accepted? ==> 0 < k.n <= |o.buffered|
  {
    match k
    case Blocked => o
    case Broken => CloseStep(o)
    case Accepted(n) =>
      var a := o.(accepted := o.accepted + o.buffered[..n], buffered := o.buffered[n..]);
      if a.buffered == [] then Complete(a.(writable := false)) else a
  }

  datatype Event = Send(data: Bytes, k: Kernel, before: Byte) | Writable(k: Kernel) | Close

  /** The event loop reports writability only while the channel asks for it. */
  predicate Enabled(o: Out, e: Event) {
    match e
    case Send(data, k, _) => SendDefined(o, data, k)
    case Writable(k) => o.open && o.writable && (k.Accepted? ==> 0 < k.n <= |o.buffered|)
    case Close => true
  }

  function Step(o: Out, e: Event): Out
    requires Enabled(o, e)
  {
    match e
    case Send(data, k, before) => SendStep(o, data, k, before)
    case Writable(k) => WriteStep(o, k)
    case Close => CloseStep(o)
  }

  ghost predicate Runs(o: Out, es: seq<Event>, o': Out)
    decreases |es|
  {
    if es == [] then o == o'
    else Enabled(o, es[0]) && Runs(Step(o, es[0]), es[1..], o')
  }

  function Data(e: Event): Bytes { if e.Send? then e.data else [] }

  /** All data handed to send, in order. */
  function Submitted(es: seq<Event>): Bytes {
    if es == [] then [] else Data(es[0]) + Submitted(es[1..])
  }

  // ---------- interest and completions, in every run ----------

  predicate InterestMatches(o: Out) { if o.open then o.writable <==> o.buffered != [] else !o.writable }

  predicate CompletionsHonest(o: Out) {
    forall i :: 0 <= i < |o.completions| ==> |o.completions[i].0| == |o.completions[i].1|
  }

  predicate Inv(o: Out) {
    |o.accepted| + |o.buffered| == |o.submitted| && InterestMatches(o) && CompletionsHonest(o)
  }

  lemma StepInv(o: Out, e: Event)
    requires Inv(o) && Enabled(o, e)
    ensures Inv(Step(o, e))
  {
  }

  lemma {:induction false} RunInv(o: Out, es: seq<Event>, o': Out)
    requires Inv(o) && Runs(o, es, o')
    ensures Inv(o') && o'.submitted == o.submitted + Submitted(es)
    decreases |es|
  {
    if es != [] {
      StepInv(o, es[0]);
      RunInv(Step(o, es[0]), es[1..], o');
      var d := Data(es[0]);
      assert Step(o, es[0]).submitted == o.submitted + d;
      assert o.submitted + d + Submitted(es[1..]) == o.submitted + (d + Submitted(es[1..]));
    }
  }

  /** In every run, refused sends included: while the connection is open its channel asks for write
      events exactly when bytes are buffered, no byte count is lost, and every write-complete
      callback found as many bytes accepted as were submitted. */
  lemma InterestAndCompletions(es: seq<Event>, o: Out)
    requires Runs(Init(), es, o)
    ensures o.open ==> (o.writable <==> o.buffered != [])
    ensures |o.accepted| + |o.buffered| == |Submitted(es)|
    ensures forall i :: 0 <= i < |o.completions| ==> |o.completions[i].0| == |o.completions[i].1|
  {
    RunInv(Init(), es, o);
  }

  // ---------- the stream ----------

  /** Nothing was waiting, and the kernel did not take the data. */
  predicate Refused(o: Out, e: Event) { e.Send? && e.data != [] && o.buffered == [] && e.k.Blocked? }

  /** The bytes an event puts on the way to the peer. */
  function Piece(o: Out, e: Event): Bytes {
    if Refused(o, e) then [e.before] + e.data[..|e.data| - 1] else Data(e)
  }

  /** The pieces of a run, one after the other. */
  function Stream(o: Out, es: seq<Event>): Bytes
    decreases |es|
  {
    if es == [] || !Enabled(o, es[0]) then []
    else Piece(o, es[0]) + Stream(Step(o, es[0]), es[1..])
  }

  lemma SendStream(o: Out, data: Bytes, k: Kernel, before: Byte)
    requires Inv(o) && SendDefined(o, data, k)
    ensures var o' := SendStep(o, data, k, before);
            o'.accepted + o'.buffered == o.accepted + o.buffered + Piece(o, Send(data, k, before))
  {
    if TriesDirect(o, data) && k.Accepted? {
      assert data == data[..k.n] + data[k.n..];
      assert o.accepted + data[..k.n] + data[k.n..] == o.accepted + data;
    }
  }

  lemma WriteStream(o: Out, k: Kernel)
    requires k.Accepted? ==> 0 < k.n <= |o.buffered|
    ensures var o' := WriteStep(o, k); o'.accepted + o'.buffered == o.accepted + o.buffered
  {
    if k.Accepted? {
      assert o.buffered == o.buffered[..k.n] + o.buffered[k.n..];
      assert o.accepted + o.buffered[..k.n] + o.buffered[k.n..] == o.accepted + o.buffered;
    }
  }

  lemma StepStream(o: Out, e: Event)
    requires Inv(o) && Enabled(o, e)
    ensures Step(o, e).accepted + Step(o, e).buffered == o.accepted + o.buffered + Piece(o, e)
  {
    match e
    case Send(data, k, before) => SendStream(o, data, k, before);
    case Writable(k) => WriteStream(o, k);
    case Close =>
  }

  lemma {:induction false} RunStream(o: Out, es: seq<Event>, o': Out)
    requires Inv(o) && Runs(o, es, o')
    ensures o'.accepted + o'.buffered == o.accepted + o.buffered + Stream(o, es)
    decreases |es|
  {
    if es != [] {
      StepInv(o, es[0]);
      StepStream(o, es[0]);
      RunStream(Step(o, es[0]), es[1..], o');
      var s, p, t := o.accepted + o.buffered, Piece(o, es[0]), Stream(Step(o, es[0]), es[1..]);
      assert s + p + t == s + (p + t);
    }
  }

  /** Order over every run: what the kernel accepted, followed by what is still buffered, is the
      pieces of the sends one after the other, whatever partial counts the kernel picked. */
  lemma OutputIsStream(es: seq<Event>, o: Out)
    requires Runs(Init(), es, o)
    ensures o.accepted + o.buffered == Stream(Init(), es)
  {
    RunStream(Init(), es, o);
  }

  /** The refused send does no damage: every byte equals the one that precedes the data in memory. */
  predicate Harmless(o: Out, e: Event) {
    Refused(o, e) ==> forall i :: 0 <= i < |e.data| ==> e.data[i] == e.before
  }

  ghost predicate HarmlessRun(o: Out, es: seq<Event>)
    decreases |es|
  {
    es == [] || (Harmless(o, es[0]) && Enabled(o, es[0]) && HarmlessRun(Step(o, es[0]), es[1..]))
  }

  lemma {:induction false} ShiftFixed(data: Bytes, before: Byte, i: nat)
    requires data != [] && [before] + data[..|data| - 1] == data && i < |data|
    ensures data[i] == before
  {
    if i > 0 {
      ShiftFixed(data, before, i - 1);
      assert data[i] == ([before] + data[..|data| - 1])[i];
    }
  }

  lemma PieceIff(o: Out, e: Event)
    ensures |Piece(o, e)| == |Data(e)|
    ensures Piece(o, e) == Data(e) <==> Harmless(o, e)
  {
    if Refused(o, e) && Piece(o, e) == e.data {
      forall i | 0 <= i < |e.data| ensures e.data[i] == e.before { ShiftFixed(e.data, e.before, i); }
    }
  }

  lemma SameHalves(a: Bytes, b: Bytes, c: Bytes, d: Bytes)
    requires |a| == |c| && |b| == |d|
    ensures a + b == c + d <==> a == c && b == d
  {
    if a + b == c + d {
      assert a == (a + b)[..|a|] && b == (a + b)[|a|..];
      assert c == (c + d)[..|c|] && d == (c + d)[|c|..];
    }
  }

  lemma {:induction false} StreamIff(o: Out, es: seq<Event>, o': Out)
    requires Runs(o, es, o')
    ensures |Stream(o, es)| == |Submitted(es)|
    ensures Stream(o, es) == Submitted(es) <==> HarmlessRun(o, es)
    decreases |es|
  {
    if es != [] {
      PieceIff(o, es[0]);
      StreamIff(Step(o, es[0]), es[1..], o');
      SameHalves(Piece(o, es[0]), Stream(Step(o, es[0]), es[1..]), Data(es[0]), Submitted(es[1..]));
    }
  }

  /** Conservation: the peer gets, or will get, exactly what was submitted if and only if every
      refused direct send of the run was harmless. */
  lemma OutputConservedIff(es: seq<Event>, o: Out)
    requires Runs(Init(), es, o)
    ensures o.accepted + o.buffered == Submitted(es) <==> HarmlessRun(Init(), es)
  {
    OutputIsStream(es, o);
    StreamIff(Init(), es, o);
  }

  /** Nothing is lost or changed, now or at any write-complete call so far. */
  predicate Exact(o: Out) {
    && o.accepted + o.buffered == o.submitted
    && forall i :: 0 <= i < |o.completions| ==> o.completions[i].0 == o.completions[i].1
  }

  lemma StepExact(o: Out, e: Event)
    requires Inv(o) && Exact(o) && Enabled(o, e) && Harmless(o, e)
    ensures Exact(Step(o, e))
  {
    StepStream(o, e);
    PieceIff(o, e);
    var o' := Step(o, e);
    assert o'.submitted == o.submitted + Data(e);
    if o'.completions != o.completions {
      assert o'.buffered == [] && o'.accepted + [] == o'.accepted;
      assert o'.completions == o.completions + [(o'.accepted, o'.submitted)];
    }
  }

  lemma {:induction false} RunExact(o: Out, es: seq<Event>, o': Out)
    requires Inv(o) && Exact(o) && Runs(o, es, o') && HarmlessRun(o, es)
    ensures Exact(o')
    decreases |es|
  {
    if es != [] {
      StepInv(o, es[0]);
      StepExact(o, es[0]);
      RunExact(Step(o, es[0]), es[1..], o');
    }
  }

  /** In those runs, at every write-complete call, the bytes accepted were the bytes submitted. */
  lemma CompletionsExact(es: seq<Event>, o: Out)
    requires Runs(Init(), es, o) && HarmlessRun(Init(), es)
    ensures forall i :: 0 <= i < |o.completions| ==> o.completions[i].0 == o.completions[i].1
  {
    RunExact(Init(), es, o);
  }

  lemma {:induction false} CountedIsHarmless(o: Out, es: seq<Event>, o': Out)
    requires Runs(o, es, o') && forall i :: 0 <= i < |es| && es[i].Send? ==> es[i].k.Accepted?
    ensures HarmlessRun(o, es)
    decreases |es|
  {
    if es != [] {
      CountedIsHarmless(Step(o, es[0]), es[1..], o');
    }
  }

  /** In particular in every run whose direct sends are answered with counts. */
  lemma OutputConserved(es: seq<Event>, o: Out)
    requires Runs(Init(), es, o) && forall i :: 0 <= i < |es| && es[i].Send? ==> es[i].k.Accepted?
    ensures o.accepted + o.buffered == Submitted(es)
  {
    CountedIsHarmless(Init(), es, o);
    OutputConservedIff(es, o);
  }

  /** A refused first send of two bytes, the byte before them being 0: the peer will get 0 and 1. */
  lemma RefusedSendShifts() returns (es: seq<Event>, o: Out)
    ensures Runs(Init(), es, o) && Submitted(es) == [1, 2] && o.accepted + o.buffered == [0, 1]
  {
    es := [Send([1, 2], Blocked, 0)];
    o := Step(Init(), es[0]);
    assert es[1..] == [] && Runs(o, [], o);
    assert Submitted(es) == [1, 2] + Submitted(es[1..]);
    assert [1, 2][..1] == [1];
  }

  // ---------- what the kernel took, and what the caller was told ----------

  /** The count with which the kernel answered: to a write event, or to a send that found nothing
      waiting. */
  function KernelTook(o: Out, e: Event): nat {
    match e
    case Send(data, k, _) => if data != [] && o.buffered == [] && k.Accepted? then k.n else 0
    case Writable(k) => if k.Accepted? then k.n else 0
    case Close => 0
  }

  /** The kernel took the last byte that was waiting, or all of a send that found nothing waiting. */
  predicate Completes(o: Out, e: Event) {
    match e
    case Send(data, k, _) => data != [] && o.buffered == [] && k == Accepted(|data|)
    case Writable(k) => k == Accepted(|o.buffered|)
    case Close => false
  }

  predicate Closes(e: Event) { e == Close || e == Writable(Broken) }

  function AllTaken(o: Out, es: seq<Event>): nat
    decreases |es|
  {
    if es == [] || !Enabled(o, es[0]) then 0 else KernelTook(o, es[0]) + AllTaken(Step(o, es[0]), es[1..])
  }

  /** What had been accepted and submitted right after each event of a run that completes. */
  function AllCompletions(o: Out, es: seq<Event>): seq<(Bytes, Bytes)>
    decreases |es|
  {
    if es == [] || !Enabled(o, es[0]) then []
    else
      var o' := Step(o, es[0]);
      (if Completes(o, es[0]) then [(o'.accepted, o'.submitted)] else []) + AllCompletions(o', es[1..])
  }

  lemma StepTold(o: Out, e: Event)
    requires Inv(o) && Enabled(o, e)
    ensures var o' := Step(o, e);
            && |o'.accepted| == |o.accepted| + KernelTook(o, e)
            && o'.completions == o.completions + (if Completes(o, e) then [(o'.accepted, o'.submitted)] else [])
            && (o'.open <==> o.open && !Closes(e))
  {
    match e
    case Send(data, k, before) =>
    case Writable(k) =>
    case Close =>
  }

  lemma {:induction false} RunTold(o: Out, es: seq<Event>, o': Out)
    requires Inv(o) && Runs(o, es, o')
    ensures |o'.accepted| == |o.accepted| + AllTaken(o, es)
    ensures o'.completions == o.completions + AllCompletions(o, es)
    ensures o'.open <==> o.open && forall i :: 0 <= i < |es| ==> !Closes(es[i])
    decreases |es|
  {
    if es != [] {
      StepInv(o, es[0]);
      StepTold(o, es[0]);
      RunTold(Step(o, es[0]), es[1..], o');
      var m := Step(o, es[0]);
      var c := if Completes(o, es[0]) then [(m.accepted, m.submitted)] else [];
      assert o.completions + c + AllCompletions(m, es[1..]) == o.completions + (c + AllCompletions(m, es[1..]));
      assert forall i :: 1 <= i < |es| ==> es[i] == es[1..][i - 1];
      assert forall i :: 0 <= i < |es[1..]| ==> es[1..][i] == es[i + 1];
    }
  }

  /** Over every run: as many bytes count as accepted as the kernel said it took; the write-complete
      callback was called after exactly the events that left nothing waiting because the kernel took
      it; and the connection is open exactly until it is closed or a write fails for good. */
  lemma KernelAndCaller(es: seq<Event>, o: Out)
    requires Runs(Init(), es, o)
    ensures |o.accepted| == AllTaken(Init(), es)
    ensures o.completions == AllCompletions(Init(), es)
    ensures o.open <==> forall i :: 0 <= i < |es| ==> !Closes(es[i])
  {
    RunTold(Init(), es, o);
    assert [] + AllCompletions(Init(), es) == AllCompletions(Init(), es);
  }

  lemma BufferedBound(o: Out, e: Event)
    requires Enabled(o, e)
    ensures |Step(o, e).buffered| <= |o.buffered| + |Data(e)|
  {
  }

  // ---------- the channel ----------

  const READ_EVENT: bv8 := 0x02
  const WRITE_EVENT: bv8 := 0x04

  /** Interest in events and registration with libevent.  `registered` is what libevent was last told
      to watch, none when the event is not added.  `addOk` and `delOk` are what event_add and
      event_del answer. */
  class Channel {
    var events: bv8
    var attached: bool
    var hasEvent: bool       // event_ != NULL
    var registered: bv8

    predicate IsNone()
      reads this
    {
      events == 0
    }

    predicate IsWritable()
      reads this
    {
      events & WRITE_EVENT != 0
    }

    predicate IsReadable()
      reads this
    {
      events & READ_EVENT != 0
    }

    /** Open, attached exactly when interested in something, and libevent watches just that. */
    ghost predicate InSync()
      reads this
    {
      hasEvent && (attached <==> !IsNone()) && registered == events
    }

    constructor (readable: bool, writable: bool)
      ensures hasEvent && !attached && registered == 0
      ensures IsReadable() == readable && IsWritable() == writable && (!readable && !writable ==> IsNone())
    {
      events := (if readable then READ_EVENT else 0) | (if writable then WRITE_EVENT else 0);
      attached, hasEvent, registered := false, true, 0;
    }

    method DetachFromEventLoop(delOk: bool)
      modifies this`attached, this`registered
      ensures attached == (old(attached) && !delOk)
      ensures registered == if old(attached) && delOk then 0 else old(registered)
    {
      if attached && delOk {
        attached, registered := false, 0;
      }
    }

    method AttachToEventLoop(addOk: bool, delOk: bool)
      requires hasEvent
      modifies this`attached, this`registered
      ensures if IsNone() then attached == old(attached) else attached == (addOk || (old(attached) && !delOk))
      ensures registered == if IsNone() then old(registered) else if addOk then events
                            else if old(attached) && delOk then 0 else old(registered)
    {
      if IsNone() {
        return;
      }
      if attached {
        DetachFromEventLoop(delOk);
      }
      if addOk {
        attached, registered := true, events;
      }
    }

    method UpdateEvents(addOk: bool, delOk: bool)
      requires hasEvent
      modifies this`attached, this`registered
      ensures attached == ((!IsNone() && addOk) || (old(attached) && !delOk))
      ensures registered == if !IsNone() && addOk then events
                            else if old(attached) && delOk then 0 else old(registered)
    {
      if IsNone() {
        DetachFromEventLoop(delOk);
      } else {
        AttachToEventLoop(addOk, delOk);
      }
    }

    method EnableEvents(readable: bool, writable: bool, addOk: bool, delOk: bool)
      requires hasEvent
      modifies this`events, this`attached, this`registered
      ensures IsReadable() == (old(IsReadable()) || readable) && IsWritable() == (old(IsWritable()) || writable)
      ensures old(InSync()) && addOk && delOk ==> InSync()
    {
      var orig := events;
      if readable { events := events | READ_EVENT; }
      if writable { events := events | WRITE_EVENT; }
      if events != orig {
        UpdateEvents(addOk, delOk);
      }
    }

    method DisableEvents(readable: bool, writable: bool, addOk: bool, delOk: bool)
      requires hasEvent
      modifies this`events, this`attached, this`registered
      ensures IsReadable() == (old(IsReadable()) && !readable) && IsWritable() == (old(IsWritable()) && !writable)
      ensures old(InSync()) && addOk && delOk ==> InSync()
    {
      var orig := events;
      if readable { events := events & !READ_EVENT; }
      if writable { events := events & !WRITE_EVENT; }
      if events != orig {
        UpdateEvents(addOk, delOk);
      }
    }

    method DisableAllEvents(addOk: bool, delOk: bool)
      requires hasEvent || IsNone()
      modifies this`events, this`attached, this`registered
      ensures IsNone() && (old(InSync()) && delOk ==> InSync())
      ensures attached == (old(attached) && (old(IsNone()) || !delOk))
      ensures registered == if old(attached) && delOk && !old(IsNone()) then 0 else old(registered)
    {
      if events != 0 {
        events := 0;
        UpdateEvents(addOk, delOk);
      }
    }

    method Close(delOk: bool)
      modifies this`attached, this`hasEvent, this`registered
      ensures !hasEvent && attached == (old(attached) && !(old(hasEvent) && delOk))
      ensures registered == if old(hasEvent && attached) && delOk then 0 else old(registered)
    {
      if hasEvent {
        DetachFromEventLoop(delOk);
        hasEvent := false;
      }
    }
  }

  // ---------- the connection ----------

  /** The connection's sending side, used from its loop thread. */
  class Connection {
    const chan: Channel
    const writeBuffer: ByteBuffer
    ghost var accepted: Bytes
    ghost var submitted: Bytes
    ghost var completions: seq<(Bytes, Bytes)>

    ghost predicate Valid()
      reads this, chan, writeBuffer, writeBuffer.buff
    {
      writeBuffer.Valid() && writeBuffer.reserved > 0 && (!chan.hasEvent ==> chan.IsNone())
    }

    ghost function View(): Out
      reads this, chan, writeBuffer, writeBuffer.buff
      requires Valid()
    {
      Out(chan.hasEvent, accepted, writeBuffer.Contents(), submitted, chan.IsWritable(), completions)
    }

    /** The protocol's invariant, and libevent watches exactly what the channel is interested in, and
        nothing once the connection is closed. */
    ghost predicate Synced()
      reads this, chan, writeBuffer, writeBuffer.buff
    {
      && Valid() && Inv(View())
      && if chan.hasEvent then chan.InSync() else !chan.attached && chan.registered == 0
    }

    /** libevent will report writability exactly while bytes are waiting on an open connection. */
    lemma WriteRegisteredIff()
      requires Synced()
      ensures chan.registered & WRITE_EVENT != 0 <==> chan.hasEvent && writeBuffer.Contents() != []
    {
    }

    constructor ()
      ensures Valid() && View() == Init() && Synced()
      ensures fresh(chan) && fresh(writeBuffer) && fresh(writeBuffer.buff)
    {
      chan := new Channel(false, false);
      writeBuffer := new ByteBuffer(8, 1024);
      accepted, submitted, completions := [], [], [];
    }

    /** Every connection is attached with read interest only. */
    method AttachToEventLoop(addOk: bool, delOk: bool)
      requires Valid() && chan.hasEvent
      modifies chan
      ensures Valid() && View() == old(View()) && chan.IsReadable()
      ensures old(Synced()) && addOk && delOk ==> Synced() && chan.registered & READ_EVENT != 0
    {
      chan.EnableEvents(true, false, addOk, delOk);
    }

    ghost method CallWriteComplete()
      requires Valid()
      modifies this`completions
      ensures Valid() && View() == Complete(old(View()))
    {
      completions := completions + [(accepted, submitted)];
    }

    /** The tail of send: what is left goes to the write buffer, and the channel asks for writability. */
    method Buffer(rest: Bytes, addOk: bool, delOk: bool)
      requires Valid() && chan.hasEvent && CanReallocate(writeBuffer.View(), |rest|)
      modifies chan, writeBuffer, writeBuffer.buff
      ensures (writeBuffer.buff == old(writeBuffer.buff) || fresh(writeBuffer.buff)) && Valid()
      ensures View() == old(View()).(buffered := old(View()).buffered + rest, writable := true)
      ensures chan.hasEvent && (old(chan.InSync()) && addOk && delOk ==> chan.InSync())
    {
      var ok := writeBuffer.Append(rest);
      chan.EnableEvents(false, true, addOk, delOk);
    }

    /** The direct send, should it be tried: what is left of the data. */
    method SendDirect(data: Bytes, k: Kernel, before: Byte) returns (rest: Bytes)
      requires Valid() && SendDefined(View(), data, k) && TriesDirect(View(), data)
      modifies this`accepted, this`completions
      ensures Valid() && rest == Remaining(data, k, before)
      ensures var a := old(View()).(accepted := old(accepted) + if k.Accepted? then data[..k.n] else []);
              View() == if rest == [] then Complete(a) else a
    {
      rest := Remaining(data, k, before);
      if k.Accepted? {
        accepted := accepted + data[..k.n];
        if |rest| == 0 {
          CallWriteComplete();
        }
      } else {
        assert accepted + [] == accepted;
      }
    }

    /** The task that send passes to the loop, for data that is not empty. */
    method SendOnLoop(data: Bytes, k: Kernel, before: Byte, addOk: bool, delOk: bool)
      requires Valid() && data != [] && SendDefined(View(), data, k) && CanReallocate(writeBuffer.View(), |data|)
      modifies this, chan, writeBuffer, writeBuffer.buff
      ensures (writeBuffer.buff == old(writeBuffer.buff) || fresh(writeBuffer.buff)) && Valid()
      ensures View() == SendStep(old(View()), data, k, before)
      ensures old(chan.InSync()) && addOk && delOk ==> chan.InSync()
      ensures !old(chan.hasEvent) ==> chan.attached == old(chan.attached) && chan.registered == old(chan.registered)
    {
      submitted := submitted + data;
      var rest := data;
      if !chan.IsWritable() && writeBuffer.UnreadBytes() == 0 {
        rest := SendDirect(data, k, before);
      }
      if |rest| > 0 {
        Buffer(rest, addOk, delOk);
      }
    }

    /** `data` lies in memory just after the byte `before`; `k` is the kernel's answer, should the
        direct send be tried, `addOk` and `delOk` are libevent's. */
    method Send(data: Bytes, k: Kernel, before: Byte, addOk: bool, delOk: bool)
      requires Valid() && SendDefined(View(), data, k) && CanReallocate(writeBuffer.View(), |data|)
      modifies this, chan, writeBuffer, writeBuffer.buff
      ensures (writeBuffer.buff == old(writeBuffer.buff) || fresh(writeBuffer.buff)) && Valid()
      ensures View() == SendStep(old(View()), data, k, before)
      ensures old(Synced()) && addOk && delOk ==> Synced()
    {
      if |data| == 0 {
        return;
      }
      if Inv(View()) { StepInv(View(), Event.Send(data, k, before)); }
      SendOnLoop(data, k, before, addOk, delOk);
    }

    /** Sending a buffer consumes all of it. */
    method SendBuffer(buffer: ByteBuffer, k: Kernel, before: Byte, addOk: bool, delOk: bool)
      requires Valid() && buffer.Valid() && buffer != writeBuffer && buffer.buff != writeBuffer.buff
      requires SendDefined(View(), buffer.Contents(), k) && CanReallocate(writeBuffer.View(), |buffer.Contents()|)
      modifies this, chan, writeBuffer, writeBuffer.buff, buffer
      ensures (writeBuffer.buff == old(writeBuffer.buff) || fresh(writeBuffer.buff)) && Valid()
      ensures View() == SendStep(old(View()), old(buffer.Contents()), k, before)
      ensures buffer.Valid() && buffer.Contents() == []
      ensures old(Synced()) && addOk && delOk ==> Synced()
    {
      var data := buffer.Consume(buffer.UnreadBytes(), false);
      assert data == old(buffer.Contents()) && buffer.Contents() == [];
      assert Valid() && View() == old(View()) && writeBuffer.View() == old(writeBuffer.View());
      Send(data, k, before, addOk, delOk);
    }

    method NetFdCloseHandle(addOk: bool, delOk: bool)
      requires Valid()
      modifies chan
      ensures Valid() && View() == CloseStep(old(View()))
      ensures chan.attached == (old(chan.attached) && !(old(chan.hasEvent) && delOk))
      ensures old(Synced()) && delOk ==> Synced()
    {
      chan.DisableAllEvents(addOk, delOk);
      chan.Close(delOk);
    }

    /** The kernel has taken n bytes off the write buffer. */
    method Drain(n: nat, addOk: bool, delOk: bool)
      requires Valid() && chan.hasEvent && 0 < n <= |writeBuffer.Contents()|
      modifies this, chan, writeBuffer
      ensures writeBuffer.buff == old(writeBuffer.buff) && Valid()
      ensures View() == WriteStep(old(View()), Accepted(n))
      ensures old(chan.InSync()) && addOk && delOk ==> chan.InSync()
    {
      accepted := accepted + writeBuffer.Contents()[..n];
      writeBuffer.Remove(n);
      if writeBuffer.UnreadBytes() == 0 {
        chan.DisableEvents(false, true, addOk, delOk);
        CallWriteComplete();
      }
    }

    method NetFdWriteHandle(k: Kernel, addOk: bool, delOk: bool)
      requires Valid() && chan.hasEvent && chan.IsWritable()
      requires k.Accepted? ==> 0 < k.n <= |writeBuffer.Contents()|
      modifies this, chan, writeBuffer
      ensures writeBuffer.buff == old(writeBuffer.buff) && Valid()
      ensures View() == WriteStep(old(View()), k)
      ensures old(Synced()) && addOk && delOk ==> Synced()
    {
      if Inv(View()) { StepInv(View(), Event.Writable(k)); }
      if k.Accepted? {
        Drain(k.n, addOk, delOk);
      } else if k.Broken? {
        NetFdCloseHandle(addOk, delOk);
      }
    }
  }

  // ---------- whole runs of a connection ----------

  method Handle(c: Connection, e: Event)
    requires c.Synced() && Enabled(c.View(), e) && CanReallocate(c.writeBuffer.View(), |Data(e)|)
    modifies c, c.chan, c.writeBuffer, c.writeBuffer.buff
    ensures (c.writeBuffer.buff == old(c.writeBuffer.buff) || fresh(c.writeBuffer.buff)) && c.Synced()
    ensures c.View() == Step(old(c.View()), e)
  {
    match e
    case Send(data, k, before) => c.Send(data, k, before, true, true);
    case Writable(k) => c.NetFdWriteHandle(k, true, true);
    case Close => c.NetFdCloseHandle(true, true);
  }

  /** Any run of the protocol can be driven through the real buffer and channel, and as long as
      libevent accepts, it ends with writability watched exactly while bytes are waiting. */
  method Drive(c: Connection, es: seq<Event>, ghost o: Out)
    requires c.Synced() && Runs(c.View(), es, o)
    requires Need(c.writeBuffer.View(), |Submitted(es)|) < MAX_ALLOC
    modifies c, c.chan, c.writeBuffer, c.writeBuffer.buff
    ensures (c.writeBuffer.buff == old(c.writeBuffer.buff) || fresh(c.writeBuffer.buff)) && c.Synced()
    ensures c.View() == o
    ensures c.chan.registered & WRITE_EVENT != 0 <==> o.open && o.buffered != []
    decreases |es|
  {
    if es != [] {
      AppendRoom(c.writeBuffer.View(), Data(es[0]), |Submitted(es[1..])|);
      BufferedBound(c.View(), es[0]);
      Handle(c, es[0]);
      Drive(c, es[1..], o);
    } else {
      c.WriteRegisteredIff();
    }
  }
}
