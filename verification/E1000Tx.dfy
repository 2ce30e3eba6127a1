// Transmit side of the E1000 driver (kern/e1000.c): pci_transmit_packet against a device that may
// act between any two statements.  The device owns the descriptors from TDH up to, not including,
// TDT, and takes the ring for empty when the two registers are equal.
module E1000Tx {

  const NUM_TX_DESC: nat := 64
  const BUFSIZE: nat := 4096
  const TXMAX: nat := 0x5EE     // E1000_TXD_BUFFER_LENGTH

  type Byte = bv8
  type Packet = seq<Byte>

  datatype TxDesc = TxDesc(dd: bool, length: nat, page: seq<Byte>)

  datatype Driver =
    | Idle
    | Test(p: Packet)                    // !(txDescArr[tx_desc_tail].status & 0x1)
    | Copy(p: Packet)                    // memmove(va, src, n)
    | SetLength(p: Packet)               // length = n
    | Clear(p: Packet)                   // status = 0
    | Advance(p: Packet)                 // tx_desc_tail = (tx_desc_tail + 1) % NUM_TX_DESC
    | WriteTdt(p: Packet)                // map_region[TDT] = tx_desc_tail

  datatype State = State(
    desc: seq<TxDesc>,
    tdh: nat, tdt: nat,                  // device registers
    tail: nat,                           // tx_desc_tail
    driver: Driver,
    accepted: seq<Packet>,               // packets handed to the device by a TDT write
    wire: seq<Packet>                    // packets sent
  )

  datatype Step = Call(p: Packet) | Statement | Send

  predicate Wf(s: State) {
    && |s.desc| == NUM_TX_DESC && s.tdh < NUM_TX_DESC && s.tdt < NUM_TX_DESC && s.tail < NUM_TX_DESC
    && (forall i :: 0 <= i < NUM_TX_DESC ==> |s.desc[i].page| == BUFSIZE && s.desc[i].length <= BUFSIZE)
    && (!s.driver.Idle? ==> |s.driver.p| <= TXMAX)
  }

  predicate Enabled(s: State, t: Step) {
    match t
    case Call(p) => s.driver.Idle?
    case Statement => !s.driver.Idle?
    case Send => s.tdh != s.tdt
  }

  function Overwrite(page: seq<Byte>, p: Packet): seq<Byte>
    requires |p| <= |page|
  {
    p + page[|p|..]
  }

  // Longer packets are refused at once.
  function Begin(s: State, p: Packet): State {
    if |p| > TXMAX then s else s.(driver := Test(p))
  }

  function DriverStep(s: State): State
    requires Wf(s)
  {
    var d := s.desc[s.tail];
    match s.driver
    case Idle => s
    case Test(p) => s.(driver := if !d.dd then Idle else Copy(p))
    case Copy(p) => s.(driver := SetLength(p), desc := s.desc[s.tail := d.(page := Overwrite(d.page, p))])
    case SetLength(p) => s.(driver := Clear(p), desc := s.desc[s.tail := d.(length := |p|)])
    case Clear(p) => s.(driver := Advance(p), desc := s.desc[s.tail := d.(dd := false)])
    case Advance(p) => s.(driver := WriteTdt(p), tail := (s.tail + 1) % NUM_TX_DESC)
    case WriteTdt(p) => s.(driver := Idle, tdt := s.tail, accepted := s.accepted + [p])
  }

  function DeviceStep(s: State): State
    requires Wf(s)
  {
    var d := s.desc[s.tdh];
    s.(wire := s.wire + [d.page[..d.length]],
       desc := s.desc[s.tdh := d.(dd := true)],
       tdh := (s.tdh + 1) % NUM_TX_DESC)
  }

  function Apply(s: State, t: Step): State
    requires Wf(s) && Enabled(s, t)
  {
    match t
    case Call(p) => Begin(s, p)
    case Statement => DriverStep(s)
    case Send => DeviceStep(s)
  }

  // ------------------------------------------------------------------
  // Invariant
  // ------------------------------------------------------------------

  function SlotOf(n: nat): nat {
    n % NUM_TX_DESC
  }

  predicate Holds(d: TxDesc, p: Packet) {
    |p| <= TXMAX && d.length == |p| && |d.page| == BUFSIZE && d.page[..d.length] == p
  }

  predicate Pending(s: State, n: nat)
    requires Wf(s) && n < |s.accepted|
  {
    !s.desc[SlotOf(n)].dd && Holds(s.desc[SlotOf(n)], s.accepted[n])
  }

  // The descriptor after the last accepted packet has been filled but not handed over.
  predicate Filling(d: Driver) {
    d.Advance? || d.WriteTdt?
  }

  predicate DriverOk(s: State)
    requires Wf(s)
  {
    var next := |s.accepted|;
    && s.tail == SlotOf(if s.driver.WriteTdt? then next + 1 else next)
    && match s.driver
       case Idle => true
       case Test(p) => true
       case Copy(p) => next < |s.wire| + NUM_TX_DESC
       case SetLength(p) => next < |s.wire| + NUM_TX_DESC && s.desc[s.tail].page[..|p|] == p
       case Clear(p) => next < |s.wire| + NUM_TX_DESC && Holds(s.desc[s.tail], p)
       case Advance(p) => next < |s.wire| + NUM_TX_DESC && Holds(s.desc[s.tail], p) && !s.desc[s.tail].dd
       case WriteTdt(p) =>
         next < |s.wire| + NUM_TX_DESC && Holds(s.desc[SlotOf(next)], p) && !s.desc[SlotOf(next)].dd
  }

  ghost predicate Inv(s: State) {
    && Wf(s)
    && s.wire <= s.accepted && |s.accepted| <= |s.wire| + NUM_TX_DESC
    && s.tdh == SlotOf(|s.wire|) && s.tdt == SlotOf(|s.accepted|)
    && (forall n :: |s.wire| <= n < |s.accepted| ==> Pending(s, n))
    && (forall n :: |s.accepted| <= n < |s.wire| + NUM_TX_DESC && !(Filling(s.driver) && n == |s.accepted|) ==>
          s.desc[SlotOf(n)].dd)
    && DriverOk(s)
  }

  lemma SlotsApart(a: nat, b: nat)
    requires a < b < a + NUM_TX_DESC
    ensures SlotOf(a) != SlotOf(b)
  {
  }

  lemma SlotNext(n: nat)
    ensures SlotOf(n) < NUM_TX_DESC
    ensures (SlotOf(n) + 1) % NUM_TX_DESC == SlotOf(n + 1)
    ensures SlotOf(n + NUM_TX_DESC) == SlotOf(n)
  {
  }

  lemma DeviceInv(s: State)
    requires Inv(s) && Enabled(s, Send)
    ensures Inv(DeviceStep(s))
    ensures |s.wire| < |s.accepted| && DeviceStep(s).wire == s.wire + [s.accepted[|s.wire|]]
  {
    var s', w := DeviceStep(s), |s.wire|;
    SlotNext(w);
    SlotNext(|s.accepted|);
    assert Pending(s, w);
    assert s'.wire == s.accepted[..w] + [s.accepted[w]] == s.accepted[..w + 1];
    forall n | w + 1 <= n < |s.accepted|
      ensures Pending(s', n)
    {
      SlotsApart(w, n);
      assert Pending(s, n);
    }
    forall n | |s.accepted| <= n < w + 1 + NUM_TX_DESC && !(Filling(s.driver) && n == |s.accepted|)
      ensures s'.desc[SlotOf(n)].dd
    {
      if n < w + NUM_TX_DESC {
        SlotsApart(w, n);
      }
    }
    if !s.driver.Idle? && !s.driver.Test? {
      SlotsApart(w, |s.accepted|);
    }
  }

  // The driver writes only into the free descriptor after the last accepted packet.
  lemma FreeSlotFrame(s: State, d: TxDesc)
    requires Inv(s) && |s.accepted| < |s.wire| + NUM_TX_DESC && |d.page| == BUFSIZE && d.length <= BUFSIZE
    ensures var s' := s.(desc := s.desc[SlotOf(|s.accepted|) := d]);
      && Wf(s')
      && (forall n :: |s.wire| <= n < |s.accepted| ==> Pending(s', n))
      && (forall n :: |s.accepted| < n < |s.wire| + NUM_TX_DESC ==> s'.desc[SlotOf(n)].dd)
  {
    var s', a := s.(desc := s.desc[SlotOf(|s.accepted|) := d]), |s.accepted|;
    forall n | |s.wire| <= n < a
      ensures Pending(s', n)
    {
      SlotsApart(n, a);
      assert Pending(s, n);
    }
    forall n | a < n < |s.wire| + NUM_TX_DESC
      ensures s'.desc[SlotOf(n)].dd
    {
      SlotsApart(a, n);
    }
  }

  lemma DriverFills(s: State)
    requires Inv(s) && (s.driver.Copy? || s.driver.SetLength? || s.driver.Clear?)
    ensures Inv(DriverStep(s))
  {
    var s' := DriverStep(s);
    FreeSlotFrame(s, s'.desc[s.tail]);
    assert s.driver.Copy? ==> s'.desc[s.tail].page[..|s.driver.p|] == s.driver.p;
    assert forall n :: |s.wire| <= n < |s.accepted| ==> Pending(s', n) == Pending(s.(desc := s'.desc), n);
  }

  lemma DriverHandsOver(s: State)
    requires Inv(s) && s.driver.WriteTdt?
    ensures Inv(DriverStep(s))
  {
    var s' := DriverStep(s);
    forall n | |s'.wire| <= n < |s'.accepted|
      ensures Pending(s', n)
    {
      assert n < |s.accepted| ==> Pending(s, n);
    }
  }

  lemma DriverMoves(s: State)
    requires Inv(s) && (s.driver.Idle? || s.driver.Test? || s.driver.Advance?)
    ensures Inv(DriverStep(s))
  {
    var s' := DriverStep(s);
    SlotNext(|s.accepted|);
    if s.driver.Test? && |s.accepted| == |s.wire| + NUM_TX_DESC {
      SlotNext(|s.wire|);
      assert Pending(s, |s.wire|);
    }
    assert forall n :: |s.wire| <= n < |s.accepted| ==> Pending(s', n) == Pending(s, n);
  }

  lemma BeginInv(s: State, p: Packet)
    requires Inv(s) && s.driver.Idle?
    ensures Inv(Begin(s, p))
  {
    assert forall n :: |s.wire| <= n < |s.accepted| ==> Pending(Begin(s, p), n) == Pending(s, n);
  }

  lemma InvStep(s: State, t: Step)
    requires Inv(s) && Enabled(s, t)
    ensures Inv(Apply(s, t))
  {
    match t
    case Call(p) => BeginInv(s, p);
    case Send => DeviceInv(s);
    case Statement =>
      if s.driver.WriteTdt? {
        DriverHandsOver(s);
      } else if s.driver.Copy? || s.driver.SetLength? || s.driver.Clear? {
        DriverFills(s);
      } else {
        DriverMoves(s);
      }
  }

  // ------------------------------------------------------------------
  // Whole runs
  // ------------------------------------------------------------------

  predicate IsRun(s: State, ts: seq<Step>)
    decreases |ts|
  {
    ts == [] || (Wf(s) && Enabled(s, ts[0]) && IsRun(Apply(s, ts[0]), ts[1..]))
  }

  function Exec(s: State, ts: seq<Step>): State
    requires IsRun(s, ts)
    decreases |ts|
  {
    if ts == [] then s else Exec(Apply(s, ts[0]), ts[1..])
  }

  // pci_func_attach_E1000 and initializeTxDescriptors: TDH, TDT and tx_desc_tail are 0, every DD is set.
  predicate Init(s: State) {
    && Wf(s) && s.tdh == 0 && s.tdt == 0 && s.tail == 0 && s.driver.Idle?
    && s.accepted == [] && s.wire == []
    && (forall i :: 0 <= i < NUM_TX_DESC ==> s.desc[i].dd)
  }

  lemma InitInv(s: State)
    requires Init(s)
    ensures Inv(s)
  {
    forall n | 0 <= n < NUM_TX_DESC
      ensures s.desc[SlotOf(n)].dd
    {
      SlotNext(n);
    }
  }

  lemma {:induction false} RunInv(s: State, ts: seq<Step>)
    requires Inv(s) && IsRun(s, ts)
    ensures Inv(Exec(s, ts))
    decreases |ts|
  {
    if ts != [] {
      InvStep(s, ts[0]);
      RunInv(Apply(s, ts[0]), ts[1..]);
    }
  }

  // The packets on the wire are a prefix of the accepted ones, and every accepted packet not yet
  // sent still lies whole in its descriptor: no pending buffer is overwritten.
  lemma SentInOrder(s: State, ts: seq<Step>)
    requires Init(s) && IsRun(s, ts)
    ensures var s' := Exec(s, ts);
      && Wf(s') && s'.wire <= s'.accepted && |s'.accepted| <= |s'.wire| + NUM_TX_DESC
      && (forall n :: |s'.wire| <= n < |s'.accepted| ==> Pending(s', n))
  {
    InitInv(s);
    RunInv(s, ts);
  }

  // The device can make progress exactly when between 1 and 63 packets are pending.
  lemma DeviceProgressIff(s: State, ts: seq<Step>)
    requires Init(s) && IsRun(s, ts)
    ensures var s' := Exec(s, ts);
      var pending := |s'.accepted| - |s'.wire|;
      Enabled(s', Send) <==> 0 < pending < NUM_TX_DESC
  {
    InitInv(s);
    RunInv(s, ts);
    var s' := Exec(s, ts);
    SlotNext(|s'.wire|);
    if |s'.wire| < |s'.accepted| < |s'.wire| + NUM_TX_DESC {
      SlotsApart(|s'.wire|, |s'.accepted|);
    }
  }

  lemma StuckStep(s: State, t: Step)
    requires Inv(s) && Enabled(s, t) && |s.accepted| == |s.wire| + NUM_TX_DESC
    ensures Apply(s, t).accepted == s.accepted && Apply(s, t).wire == s.wire
  {
    SlotNext(|s.wire|);
  }

  // With all 64 descriptors pending TDT has caught up with TDH: the device sees an empty ring, the
  // driver sees no free descriptor, and nothing is sent or accepted ever again.
  lemma {:induction false} FullRingIsStuck(s: State, ts: seq<Step>)
    requires Inv(s) && IsRun(s, ts) && |s.accepted| == |s.wire| + NUM_TX_DESC
    ensures Exec(s, ts).accepted == s.accepted && Exec(s, ts).wire == s.wire
    decreases |ts|
  {
    if ts != [] {
      InvStep(s, ts[0]);
      StuckStep(s, ts[0]);
      FullRingIsStuck(Apply(s, ts[0]), ts[1..]);
    }
  }

  // Statements the driver has left in its call, when it finds a free descriptor.
  function Left(d: Driver): nat {
    match d
    case Idle => 0
    case Test(_) => 6
    case Copy(_) => 5
    case SetLength(_) => 4
    case Clear(_) => 3
    case Advance(_) => 2
    case WriteTdt(_) => 1
  }

  function Statements(n: nat): (ts: seq<Step>)
    ensures |ts| == n
  {
    if n == 0 then [] else [Statement] + Statements(n - 1)
  }

  // With room in the ring the test succeeds.
  lemma OneStatement(s: State)
    requires Inv(s) && !s.driver.Idle? && |s.accepted| < |s.wire| + NUM_TX_DESC
    ensures var s' := DriverStep(s);
      && Left(s'.driver) == Left(s.driver) - 1 && s'.wire == s.wire && (!s'.driver.Idle? ==> s'.driver.p == s.driver.p)
      && s'.accepted == if s'.driver.Idle? then s.accepted + [s.driver.p] else s.accepted
  {
  }

  lemma {:induction false} CallFinishes(s: State)
    requires Inv(s) && !s.driver.Idle? && |s.accepted| < |s.wire| + NUM_TX_DESC
    ensures var ts := Statements(Left(s.driver));
      && IsRun(s, ts) && Inv(Exec(s, ts)) && Exec(s, ts).driver.Idle?
      && Exec(s, ts).wire == s.wire && Exec(s, ts).accepted == s.accepted + [s.driver.p]
    decreases Left(s.driver)
  {
    var s' := DriverStep(s);
    InvStep(s, Statement);
    OneStatement(s);
    var ts := Statements(Left(s.driver));
    assert ts[0] == Statement && ts[1..] == Statements(Left(s'.driver));
    hide Inv, DriverStep;
    if !s'.driver.Idle? {
      CallFinishes(s');
    } else {
      assert ts[1..] == [];
    }
  }

  lemma {:induction false} RunConcat(s: State, a: seq<Step>, b: seq<Step>)
    requires IsRun(s, a) && IsRun(Exec(s, a), b)
    ensures IsRun(s, a + b) && Exec(s, a + b) == Exec(Exec(s, a), b)
    decreases |a|
  {
    if a == [] {
      assert a + b == b;
    } else {
      RunConcat(Apply(s, a[0]), a[1..], b);
      assert (a + b)[0] == a[0] && (a + b)[1..] == a[1..] + b;
    }
  }

  // n calls with packet p while the device does nothing.
  function Calls(p: Packet, n: nat): seq<Step> {
    if n == 0 then [] else [Call(p)] + Statements(6) + Calls(p, n - 1)
  }

  lemma OneCall(s: State, p: Packet)
    requires Inv(s) && s.driver.Idle? && |p| <= TXMAX && |s.accepted| < |s.wire| + NUM_TX_DESC
    ensures var ts := [Call(p)] + Statements(6);
      && IsRun(s, ts) && Inv(Exec(s, ts)) && Exec(s, ts).driver.Idle?
      && Exec(s, ts).wire == s.wire && Exec(s, ts).accepted == s.accepted + [p]
  {
    InvStep(s, Call(p));
    var s1 := Begin(s, p);
    assert s1.driver == Test(p) && s1.accepted == s.accepted && s1.wire == s.wire;
    hide Inv, Statements;
    CallFinishes(s1);
    var ts := [Call(p)] + Statements(6);
    assert ts[0] == Call(p) && ts[1..] == Statements(6);
  }

  lemma {:induction false} CallsFill(s: State, p: Packet, n: nat)
    requires Inv(s) && s.driver.Idle? && |p| <= TXMAX && |s.accepted| + n <= |s.wire| + NUM_TX_DESC
    ensures var ts := Calls(p, n);
      && IsRun(s, ts) && Exec(s, ts).wire == s.wire && |Exec(s, ts).accepted| == |s.accepted| + n
    decreases n
  {
    hide Inv, Statements;
    if n > 0 {
      var ts := [Call(p)] + Statements(6);
      OneCall(s, p);
      CallsFill(Exec(s, ts), p, n - 1);
      RunConcat(s, ts, Calls(p, n - 1));
    }
  }

  // And that state is reached: 64 calls while the device is slow.
  lemma FullRingReached(s: State, p: Packet)
    requires Init(s) && |p| <= TXMAX
    ensures IsRun(s, Calls(p, NUM_TX_DESC))
    ensures var s' := Exec(s, Calls(p, NUM_TX_DESC)); Inv(s') && |s'.accepted| == |s'.wire| + NUM_TX_DESC
  {
    InitInv(s);
    CallsFill(s, p, NUM_TX_DESC);
    RunInv(s, Calls(p, NUM_TX_DESC));
  }

  // ------------------------------------------------------------------
  // The code, with the device running between any two statements
  // ------------------------------------------------------------------

  class Transmitter {
    var desc: seq<TxDesc>
    var tdh: nat
    var tdt: nat
    var tail: nat
    ghost var accepted: seq<Packet>
    ghost var wire: seq<Packet>

    ghost function At(d: Driver): State
      reads this
    {
      State(desc, tdh, tdt, tail, d, accepted, wire)
    }

    ghost predicate Valid()
      reads this
    {
      Inv(At(Idle))
    }

    // Any number of transmissions.
    method DeviceRuns(ghost d: Driver)
      requires Inv(At(d))
      modifies this`desc, this`tdh, this`wire
      ensures Inv(At(d)) && old(wire) <= wire
      ensures old(tdh) == tdt ==> wire == old(wire)
    {
      var steps: int := *;
      while steps > 0
        invariant Inv(At(d)) && old(wire) <= wire
        invariant old(tdh) == tdt ==> tdh == tdt && wire == old(wire)
      {
        steps := steps - 1;
        if tdh != tdt {
          DeviceInv(At(d));
          ghost var next := DeviceStep(At(d));
          wire := wire + [desc[tdh].page[..desc[tdh].length]];
          desc := desc[tdh := desc[tdh].(dd := true)];
          tdh := (tdh + 1) % NUM_TX_DESC;
          assert At(d) == next;
        }
      }
    }

    // Lines 90 to 98: fill the free descriptor and mark it not free.
    method Fill(src: Packet)
      requires Inv(At(Copy(src)))
      modifies this`desc, this`tdh, this`wire
      ensures Inv(At(Advance(src))) && old(wire) <= wire
    {
      DriverFills(At(Copy(src)));
      desc := desc[tail := desc[tail].(page := Overwrite(desc[tail].page, src))];
      DeviceRuns(SetLength(src));
      DriverFills(At(SetLength(src)));
      desc := desc[tail := desc[tail].(length := |src|)];
      DeviceRuns(Clear(src));
      DriverFills(At(Clear(src)));
      desc := desc[tail := desc[tail].(dd := false)];
    }

    // Lines 101 and 102: publish the new tail.
    method HandOver(ghost src: Packet)
      requires Inv(At(Advance(src)))
      modifies this
      ensures Valid() && old(wire) <= wire && accepted == old(accepted) + [src]
    {
      DriverMoves(At(Advance(src)));
      tail := (tail + 1) % NUM_TX_DESC;
      DeviceRuns(WriteTdt(src));
      DriverHandsOver(At(WriteTdt(src)));
      tdt := tail;
      accepted := accepted + [src];
    }

    // Line 84: is the descriptor at the tail free?
    method Poll(ghost src: Packet) returns (free: bool)
      requires Valid() && |src| <= TXMAX
      modifies this`desc, this`tdh, this`wire
      ensures Inv(At(if free then Copy(src) else Idle)) && old(wire) <= wire
      ensures |accepted| < |old(wire)| + NUM_TX_DESC ==> free
      ensures |accepted| == |old(wire)| + NUM_TX_DESC ==> !free && wire == old(wire)
    {
      BeginInv(At(Idle), src);
      SlotNext(|wire|);
      DeviceRuns(Test(src));
      assert |accepted| == |wire| + NUM_TX_DESC ==> Pending(At(Test(src)), |wire|) && SlotOf(|wire|) == SlotOf(|accepted|) by {
        SlotNext(|wire|);
      }
      DriverMoves(At(Test(src)));
      free := desc[tail].dd;
    }

    // Accepts the packet unless it is too long or all 64 descriptors are pending.
    method PciTransmitPacket(src: Packet) returns (ok: bool)
      requires Valid()
      modifies this
      ensures Valid() && old(wire) <= wire
      ensures accepted == if ok then old(accepted) + [src] else old(accepted)
      ensures ok <==> |src| <= TXMAX && |old(accepted)| < |old(wire)| + NUM_TX_DESC
    {
      if |src| > TXMAX {
        return false;
      }
      var free := Poll(src);
      if !free {
        return false;
      }
      DeviceRuns(Copy(src));
      Fill(src);
      DeviceRuns(Advance(src));
      HandOver(src);
      return true;
    }
  }
}
