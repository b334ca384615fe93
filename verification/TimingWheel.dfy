// The timing wheel that closes idle connections: a ring of buckets, compared with
// the obvious map from each entry to the tick of its last activity.

module TimingWheel {

  type Entry = nat

  datatype Event = Tick | Touch(e: Entry)

  /** `last` and `ticks` are the reference: when each entry was last touched, and the time. */
  datatype State = State(slots: nat, buckets: seq<set<Entry>>, ticks: nat, last: map<Entry, nat>)

  function RingPush<T>(ring: seq<T>, max: nat, x: T): seq<T>
    requires max >= 1
  {
    if |ring| == max then ring[1..] + [x] else ring + [x]
  }

  function InsertBack(buckets: seq<set<Entry>>, e: Entry): seq<set<Entry>>
    requires buckets != []
  {
    buckets[|buckets| - 1 := buckets[|buckets| - 1] + {e}]
  }

  function Init(slots: nat): State { State(slots, [], 0, map[]) }

  /** `back()` of an empty list is undefined, so nothing may be touched before the first tick. */
  predicate Enabled(s: State, ev: Event) { s.slots >= 1 && (ev.Touch? ==> s.buckets != []) }

  function Step(s: State, ev: Event): State
    requires Enabled(s, ev)
  {
    match ev
    case Tick => s.(buckets := RingPush(s.buckets, s.slots, {}), ticks := s.ticks + 1)
    case Touch(e) => s.(buckets := InsertBack(s.buckets, e), last := s.last[e := s.ticks])
  }

  ghost predicate Runs(s: State, evs: seq<Event>, s': State)
    decreases |evs|
  {
    if evs == [] then s == s'
    else Enabled(s, evs[0]) && Runs(Step(s, evs[0]), evs[1..], s')
  }

  ghost predicate Reachable(slots: nat, s: State) {
    exists evs :: Runs(Init(slots), evs, s)
  }

  /** Some bucket owns a reference, so the entry is alive and its connection open. */
  ghost predicate Held(buckets: seq<set<Entry>>, e: Entry) {
    exists i :: 0 <= i < |buckets| && e in buckets[i]
  }

  /** The tick that opened bucket i. */
  function Opened(s: State, i: int): int { s.ticks - (|s.buckets| - 1 - i) }

  ghost predicate Inv(s: State) {
    && s.slots >= 1
    && |s.buckets| == (if s.ticks < s.slots then s.ticks else s.slots)
    && (forall e :: e in s.last ==> 1 <= s.last[e] <= s.ticks)
    && (forall i, e :: 0 <= i < |s.buckets| && e in s.buckets[i] ==> e in s.last && s.last[e] >= Opened(s, i))
    && (forall i, e :: 0 <= i < |s.buckets| && e in s.last && s.last[e] == Opened(s, i) ==> e in s.buckets[i])
  }

  lemma TickInv(s: State)
    requires Inv(s)
    ensures Inv(Step(s, Tick))
  {
    var s' := Step(s, Tick);
    var d := if |s.buckets| == s.slots then 1 else 0;
    var n := |s'.buckets| - 1;
    assert s'.buckets[n] == {} && forall i :: 0 <= i < n ==> s'.buckets[i] == s.buckets[i + d];
    forall i, e | 0 <= i <= n && e in s'.buckets[i]
      ensures e in s.last && s.last[e] >= Opened(s', i)
    {
      assert e in s.buckets[i + d];
    }
    forall i, e | 0 <= i <= n && e in s.last && s.last[e] == Opened(s', i)
      ensures e in s'.buckets[i]
    {
      assert s.last[e] == Opened(s, i + d);
    }
  }

  lemma TouchInv(s: State, e: Entry)
    requires Inv(s) && Enabled(s, Touch(e))
    ensures Inv(Step(s, Touch(e)))
  {
    var s' := Step(s, Touch(e));
    assert forall i :: Opened(s', i) == Opened(s, i);
  }

  lemma StepInv(s: State, ev: Event)
    requires Inv(s) && Enabled(s, ev)
    ensures Inv(Step(s, ev))
  {
    match ev
    case Tick => TickInv(s);
    case Touch(e) => TouchInv(s, e);
  }

  lemma {:induction false} RunInv(s: State, evs: seq<Event>, s': State)
    requires Inv(s) && Runs(s, evs, s')
    ensures Inv(s') && s'.slots == s.slots
    decreases |evs|
  {
    if evs != [] {
      StepInv(s, evs[0]);
      RunInv(Step(s, evs[0]), evs[1..], s');
    }
  }

  lemma ReachableInv(slots: nat, s: State)
    requires slots >= 1 && Reachable(slots, s)
    ensures Inv(s) && s.slots == slots
  {
    var evs :| Runs(Init(slots), evs, s);
    RunInv(Init(slots), evs, s);
  }

  lemma HeldIffRecent(s: State, e: Entry)
    requires Inv(s)
    ensures Held(s.buckets, e) <==> e in s.last && s.ticks - s.last[e] < s.slots
  {
    if e in s.last && s.ticks - s.last[e] < s.slots {
      var i := |s.buckets| - 1 - (s.ticks - s.last[e]);
      assert Opened(s, i) == s.last[e];
      assert e in s.buckets[i];
    }
  }

  /** The wheel agrees with the map: exactly the entries touched fewer than `slots` ticks ago are held. */
  lemma WheelAgreesWithTimestamps(slots: nat, s: State, e: Entry)
    requires slots >= 1 && Reachable(slots, s)
    ensures Held(s.buckets, e) <==> e in s.last && s.ticks - s.last[e] < slots
  {
    ReachableInv(slots, s);
    HeldIffRecent(s, e);
  }

  /** A tick drops exactly the entries whose last touch is now `slots` ticks old. */
  lemma TickDropsExactlyExpired(slots: nat, s: State, e: Entry)
    requires slots >= 1 && Reachable(slots, s) && Enabled(s, Tick)
    ensures var s' := Step(s, Tick);
            Held(s.buckets, e) && !Held(s'.buckets, e) <==> e in s.last && s'.ticks - s.last[e] == slots
  {
    ReachableInv(slots, s);
    StepInv(s, Tick);
    HeldIffRecent(s, e);
    HeldIffRecent(Step(s, Tick), e);
  }

  /** How many ticks ago an entry was last touched in a run; -1 if never. */
  function Since(evs: seq<Event>, e: Entry): int {
    if evs == [] then -1
    else
      var n, ev := |evs| - 1, evs[|evs| - 1];
      var before := Since(evs[..n], e);
      if ev == Touch(e) then 0 else if ev.Tick? && before >= 0 then before + 1 else before
  }

  lemma {:induction false} RunsSplit(s: State, evs: seq<Event>, s': State) returns (m: State)
    requires evs != [] && Runs(s, evs, s')
    ensures Runs(s, evs[..|evs| - 1], m) && Enabled(m, evs[|evs| - 1]) && s' == Step(m, evs[|evs| - 1])
    decreases |evs|
  {
    if |evs| == 1 {
      m := s;
      assert evs[1..] == [] && evs[..0] == [];
    } else {
      m := RunsSplit(Step(s, evs[0]), evs[1..], s');
      assert evs[1..][..|evs| - 2] == evs[..|evs| - 1][1..];
    }
  }

  lemma {:induction false} SinceIsAge(slots: nat, evs: seq<Event>, s: State, e: Entry)
    requires Runs(Init(slots), evs, s)
    ensures Since(evs, e) == if e in s.last then s.ticks - s.last[e] else -1
    ensures e in s.last ==> s.last[e] <= s.ticks
    decreases |evs|
  {
    if evs != [] {
      var m := RunsSplit(Init(slots), evs, s);
      SinceIsAge(slots, evs[..|evs| - 1], m, e);
    }
  }

  /** The wheel after any run: exactly the entries touched in it, fewer than `slots` ticks ago, are held. */
  lemma HeldIffTouchedRecently(slots: nat, evs: seq<Event>, s: State, e: Entry)
    requires slots >= 1 && Runs(Init(slots), evs, s)
    ensures Held(s.buckets, e) <==> 0 <= Since(evs, e) < slots
  {
    SinceIsAge(slots, evs, s, e);
    WheelAgreesWithTimestamps(slots, s, e);
  }

  function Ticks(evs: seq<Event>): nat {
    if evs == [] then 0 else (if evs[0].Tick? then 1 else 0) + Ticks(evs[1..])
  }

  lemma {:induction false} IdleLast(s: State, e: Entry, evs: seq<Event>, s': State)
    requires Runs(s, evs, s') && Touch(e) !in evs
    ensures s'.ticks == s.ticks + Ticks(evs)
    ensures e in s.last ==> e in s'.last && s'.last[e] == s.last[e]
    decreases |evs|
  {
    if evs != [] {
      assert evs[0] in evs;
      IdleLast(Step(s, evs[0]), e, evs[1..], s');
    }
  }

  /** Whatever happens to the others, an entry that is not touched again survives exactly
      the next `slots - 1` ticks. */
  lemma IdleEntryExpiresOnTime(slots: nat, s: State, e: Entry, evs: seq<Event>, s': State)
    requires slots >= 1 && Reachable(slots, s) && Enabled(s, Touch(e))
    requires Runs(Step(s, Touch(e)), evs, s') && Touch(e) !in evs
    ensures Held(s'.buckets, e) <==> Ticks(evs) < slots
  {
    ReachableInv(slots, s);
    StepInv(s, Touch(e));
    RunInv(Step(s, Touch(e)), evs, s');
    IdleLast(Step(s, Touch(e)), e, evs, s');
    HeldIffRecent(s', e);
  }

  // ---------- the objects ----------

  class RingBuffer<T> {
    var maxSize: nat
    var coreList: seq<T>

    constructor (size: nat)
      ensures maxSize == size && coreList == []
    {
      maxSize, coreList := size, [];
    }

    method PushBack(elem: T)
      requires maxSize >= 1 && |coreList| <= maxSize
      modifies this
      ensures maxSize == old(maxSize) && |coreList| <= maxSize
      ensures coreList == RingPush(old(coreList), maxSize, elem)
    {
      if |coreList| == maxSize {
        coreList := coreList[1..];
      }
      coreList := coreList + [elem];
    }
  }

  class Wheel {
    const cycleBuckets: RingBuffer<set<Entry>>
    ghost var ticks: nat
    ghost var last: map<Entry, nat>

    ghost function View(): State
      reads this, cycleBuckets
    {
      State(cycleBuckets.maxSize, cycleBuckets.coreList, ticks, last)
    }

    constructor (slotSize: nat)
      requires slotSize >= 1
      ensures View() == Init(slotSize) && Inv(View()) && fresh(cycleBuckets)
    {
      cycleBuckets := new RingBuffer<set<Entry>>(slotSize);
      ticks, last := 0, map[];
    }

    method PushBack(elem: Entry)
      requires Inv(View()) && Enabled(View(), Touch(elem))
      modifies this, cycleBuckets
      ensures View() == Step(old(View()), Touch(elem)) && Inv(View())
    {
      StepInv(View(), Touch(elem));
      var l := cycleBuckets.coreList;
      cycleBuckets.coreList := l[|l| - 1 := l[|l| - 1] + {elem}];
      last := last[elem := ticks];
    }

    /** A tick, and the entries whose last reference it drops: their destructors close
        the connections that have been idle for exactly `slotSize` ticks. */
    method PushBucket() returns (closed: set<Entry>)
      requires Inv(View())
      modifies this, cycleBuckets
      ensures View() == Step(old(View()), Tick) && Inv(View())
      ensures forall e :: e in closed <==> e in last && ticks - last[e] == cycleBuckets.maxSize
    {
      StepInv(View(), Tick);
      ghost var before := View();
      var popped := if |cycleBuckets.coreList| == cycleBuckets.maxSize then cycleBuckets.coreList[0] else {};
      cycleBuckets.PushBack({});
      ticks := ticks + 1;
      var held := cycleBuckets.coreList;
      closed := set e | e in popped && forall i :: 0 <= i < |held| ==> e !in held[i];
      forall e ensures e in closed <==> e in last && ticks - last[e] == cycleBuckets.maxSize {
        HeldIffRecent(before, e);
        HeldIffRecent(View(), e);
      }
    }
  }
}
