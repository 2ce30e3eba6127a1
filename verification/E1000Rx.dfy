// Receive side of the E1000 driver (kern/e1000.c): pci_receive_packet against a device that may
// act between any two statements.  Sections 3.2.6 and 3.4 of Intel's Gigabit Ethernet Controllers
// Software Developer's Manual: the device owns the descriptors from RDH up to, not including, RDT.
module E1000Rx {
  import opened Wrappers

  const NUM_RX_DESC: nat := 64
  const BUFSIZE: nat := 4096    // one page per descriptor
  const RXMAX: nat := 2048      // RCTL leaves BSIZE at 2048

  type Byte = bv8
  type Packet = seq<Byte>

  // status bits 0 (DD) and 1 (EOP), length, and the page the address names
  datatype RxDesc = RxDesc(dd: bool, eop: bool, length: nat, page: seq<Byte>)

  datatype Driver =
    | Idle
    | Test(temp: nat)                    // !(rxDescArr[rx_desc_tail].status & 0x1)
    | TestEop                            // !(status & 0x2)
    | Length                             // n = length
    | Copy(n: nat)                       // memmove(dst, va, n)
    | Clear(n: nat)                      // status &= 0xfc
    | WriteRdt(n: nat)                   // map_region[RDT] = rx_desc_tail
    | Panicked

  datatype State = State(
    desc: seq<RxDesc>,
    rdh: nat, rdt: nat,                  // device registers
    tail: nat,                           // rx_desc_tail
    driver: Driver,
    arrived: seq<Packet>,                // packets the device has written, in order
    got: seq<Packet>,                    // packets copied out to callers, in order
    done: nat                            // receives whose RDT write has been done
  )

  datatype Step = Call | Statement | Arrive(p: Packet)

  predicate Wf(s: State) {
    && |s.desc| == NUM_RX_DESC && s.rdh < NUM_RX_DESC && s.rdt < NUM_RX_DESC && s.tail < NUM_RX_DESC
    && (forall i :: 0 <= i < NUM_RX_DESC ==> |s.desc[i].page| == BUFSIZE)
    && (s.driver.Test? ==> s.driver.temp < NUM_RX_DESC)
    && (s.driver.Copy? ==> s.driver.n <= BUFSIZE)
  }

  predicate Enabled(s: State, t: Step) {
    match t
    case Call => s.driver.Idle?
    case Statement => !s.driver.Idle? && !s.driver.Panicked?
    // Hypothesis: a packet fits one buffer, so the device marks every descriptor end-of-packet.
    case Arrive(p) => s.rdh != s.rdt && |p| <= RXMAX
  }

  function Overwrite(page: seq<Byte>, p: Packet): seq<Byte>
    requires |p| <= |page|
  {
    p + page[|p|..]
  }

  function DriverStep(s: State): State
    requires Wf(s)
  {
    var d := s.desc[s.tail];
    match s.driver
    case Idle => s.(tail := (s.tail + 1) % NUM_RX_DESC, driver := Test(s.tail))
    case Test(temp) => if !d.dd then s.(tail := temp, driver := Idle) else s.(driver := TestEop)
    case TestEop => s.(driver := if !d.eop then Panicked else Length)
    case Length => s.(driver := Copy(d.length))
    case Copy(n) => s.(driver := Clear(n), got := s.got + [d.page[..n]])
    case Clear(n) => s.(driver := WriteRdt(n), desc := s.desc[s.tail := d.(dd := false, eop := false)])
    case WriteRdt(n) => s.(driver := Idle, rdt := s.tail, done := s.done + 1)
    case Panicked => s
  }

  function Apply(s: State, t: Step): State
    requires Wf(s) && Enabled(s, t)
  {
    match t
    case Call => DriverStep(s)
    case Statement => DriverStep(s)
    case Arrive(p) =>
      var d := s.desc[s.rdh];
      s.(desc := s.desc[s.rdh := RxDesc(true, true, |p|, Overwrite(d.page, p))],
         rdh := (s.rdh + 1) % NUM_RX_DESC,
         arrived := s.arrived + [p])
  }

  // ------------------------------------------------------------------
  // Invariant
  // ------------------------------------------------------------------

  // The descriptor of the n-th packet: RDH starts at 1.
  function SlotOf(n: nat): nat {
    (n + 1) % NUM_RX_DESC
  }

  predicate Busy(d: Driver) {
    !d.Idle? && !d.Panicked?
  }

  predicate Cleared(s: State, n: nat) {
    s.driver.WriteRdt? && n == s.done
  }

  predicate Full(s: State, n: nat)
    requires Wf(s) && n < |s.arrived|
  {
    var d := s.desc[SlotOf(n)];
    d.dd && d.eop && d.length == |s.arrived[n]| && d.length <= RXMAX && d.page[..d.length] == s.arrived[n]
  }

  predicate DriverOk(s: State)
    requires Wf(s)
  {
    && !s.driver.Panicked?
    && s.got <= s.arrived
    && |s.got| == s.done + (if s.driver.Clear? || s.driver.WriteRdt? then 1 else 0)
    && s.tail == (if Busy(s.driver) then SlotOf(s.done) else s.done % NUM_RX_DESC)
    && match s.driver
       case Test(temp) => temp == s.done % NUM_RX_DESC
       case TestEop => s.done < |s.arrived|
       case Length => s.done < |s.arrived|
       case Copy(n) => s.done < |s.arrived| && n == |s.arrived[s.done]| && n <= RXMAX
       case Clear(n) => n == |s.arrived[s.done]|
       case WriteRdt(n) => n == |s.arrived[s.done]|
       case _ => true
  }

  ghost predicate Inv(s: State) {
    && Wf(s)
    && s.done <= |s.arrived| < s.done + NUM_RX_DESC
    && s.rdh == SlotOf(|s.arrived|) && s.rdt == s.done % NUM_RX_DESC
    && DriverOk(s)
    && (forall n :: s.done <= n < |s.arrived| && !Cleared(s, n) ==> Full(s, n))
    && (forall n :: |s.arrived| <= n < s.done + NUM_RX_DESC ==> !s.desc[SlotOf(n)].dd)
    && (s.driver.WriteRdt? ==> !s.desc[SlotOf(s.done)].dd)
  }

  lemma SlotsApart(a: nat, b: nat)
    requires a < b < a + NUM_RX_DESC
    ensures SlotOf(a) != SlotOf(b)
  {
  }

  lemma SlotNext(n: nat)
    ensures SlotOf(n) < NUM_RX_DESC
    ensures (n % NUM_RX_DESC + 1) % NUM_RX_DESC == SlotOf(n)
    ensures (SlotOf(n) + 1) % NUM_RX_DESC == SlotOf(n + 1)
    ensures SlotOf(n) == (n + 1) % NUM_RX_DESC
    ensures SlotOf(n + NUM_RX_DESC) == SlotOf(n)
    ensures SlotOf(n + NUM_RX_DESC - 1) == n % NUM_RX_DESC
  {
  }

  // The device never takes the last slot: one descriptor always separates RDH from RDT.
  lemma DeviceInv(s: State, p: Packet)
    requires Inv(s) && Enabled(s, Arrive(p))
    ensures Inv(Apply(s, Arrive(p)))
  {
    var s', w := Apply(s, Arrive(p)), |s.arrived|;
    SlotNext(w);
    SlotNext(s.done);
    assert w + 1 < s.done + NUM_RX_DESC;
    assert s'.desc[s.rdh].page[..|p|] == p;
    forall n | s.done <= n < w + 1 && !Cleared(s', n)
      ensures Full(s', n)
    {
      if n < w {
        SlotsApart(n, w);
        assert Full(s, n);
      }
    }
    forall n | w + 1 <= n < s.done + NUM_RX_DESC
      ensures !s'.desc[SlotOf(n)].dd
    {
      SlotsApart(w, n);
    }
    if s.driver.WriteRdt? {
      SlotsApart(s.done, w);
    }
  }

  // Statements that only read.
  lemma DriverReads(s: State)
    requires Inv(s) && !s.driver.Panicked? && !s.driver.Clear? && !s.driver.WriteRdt?
    ensures Inv(DriverStep(s))
  {
    SlotNext(s.done);
    var s' := DriverStep(s);
    if Busy(s.driver) && !s.driver.Test? {
      assert Full(s, s.done);
      assert s.driver.Copy? ==> s'.got == s.arrived[..s.done] + [s.arrived[s.done]] == s.arrived[..s.done + 1];
    }
    forall n | s.done <= n < |s.arrived|
      ensures Full(s', n)
    {
      assert Full(s, n);
    }
  }

  lemma DriverClears(s: State)
    requires Inv(s) && s.driver.Clear?
    ensures Inv(DriverStep(s))
  {
    var s' := DriverStep(s);
    SlotNext(s.done);
    forall n | s.done <= n < |s.arrived| && !Cleared(s', n)
      ensures Full(s', n)
    {
      SlotsApart(s.done, n);
      assert Full(s, n);
    }
    forall n | |s.arrived| <= n < s.done + NUM_RX_DESC
      ensures !s'.desc[SlotOf(n)].dd
    {
      SlotsApart(s.done, n);
    }
  }

  lemma DriverReturns(s: State)
    requires Inv(s) && s.driver.WriteRdt?
    ensures Inv(DriverStep(s))
  {
    var s' := DriverStep(s);
    SlotNext(s.done);
    forall n | s'.done <= n < |s.arrived|
      ensures Full(s', n)
    {
      assert Full(s, n);
    }
    forall n | |s.arrived| <= n < s'.done + NUM_RX_DESC
      ensures !s'.desc[SlotOf(n)].dd
    {
      assert n == s.done + NUM_RX_DESC ==> SlotOf(n) == SlotOf(s.done);
    }
  }

  lemma InvStep(s: State, t: Step)
    requires Inv(s) && Enabled(s, t)
    ensures Inv(Apply(s, t))
  {
    match t
    case Arrive(p) => DeviceInv(s, p);
    case _ =>
      if s.driver.Clear? {
        DriverClears(s);
      } else if s.driver.WriteRdt? {
        DriverReturns(s);
      } else {
        DriverReads(s);
      }
  }

  // ------------------------------------------------------------------
  // Whole runs
  // ------------------------------------------------------------------

  predicate IsRun(s: State, ts: seq<Step>)
    decreases |ts|
  {
    ts == [] || (Wf(s) && Enabled(s, ts[0]) && IsRun(Apply(s, ts[0]), ts[1..]))
  }

  function Exec(s: State, ts: seq<Step>): State
    requires IsRun(s, ts)
    decreases |ts|
  {
    if ts == [] then s else Exec(Apply(s, ts[0]), ts[1..])
  }

  // pci_func_attach_E1000: RDH is 1, RDT and rx_desc_tail are 0, every status is 0.
  predicate Init(s: State) {
    && Wf(s) && s.rdh == 1 && s.rdt == 0 && s.tail == 0 && s.driver.Idle?
    && s.arrived == [] && s.got == [] && s.done == 0
    && (forall i :: 0 <= i < NUM_RX_DESC ==> !s.desc[i].dd)
  }

  lemma InitInv(s: State)
    requires Init(s)
    ensures Inv(s)
  {
    forall n | 0 <= n < NUM_RX_DESC
      ensures !s.desc[SlotOf(n)].dd
    {
      SlotNext(n);
    }
  }

  lemma {:induction false} RunInv(s: State, ts: seq<Step>)
    requires Inv(s) && IsRun(s, ts)
    ensures Inv(Exec(s, ts))
    decreases |ts|
  {
    if ts != [] {
      InvStep(s, ts[0]);
      RunInv(Apply(s, ts[0]), ts[1..]);
    }
  }

  // Callers receive the packets the device wrote, in order, once each; those not yet received
  // still lie intact in the ring, and the driver never meets a descriptor without end-of-packet.
  lemma ReceivedInOrder(s: State, ts: seq<Step>)
    requires Init(s) && IsRun(s, ts)
    ensures var s' := Exec(s, ts);
      && Wf(s') && !s'.driver.Panicked? && s'.got <= s'.arrived
      && (forall n :: |s'.got| <= n < |s'.arrived| ==> Full(s', n))
  {
    InitInv(s);
    RunInv(s, ts);
    var s' := Exec(s, ts);
    forall n | |s'.got| <= n < |s'.arrived|
      ensures Full(s', n)
    {
      assert !Cleared(s', n);
    }
  }

  // The circular range [RDH, RDT).
  predicate DeviceOwns(s: State, i: nat)
    requires Wf(s) && i < NUM_RX_DESC
  {
    (i + NUM_RX_DESC - s.rdh) % NUM_RX_DESC < (s.rdt + NUM_RX_DESC - s.rdh) % NUM_RX_DESC
  }

  lemma Circular(done: nat, w: nat, n: nat)
    requires done <= w < done + NUM_RX_DESC && w <= n < w + NUM_RX_DESC
    ensures (SlotOf(n) + NUM_RX_DESC - SlotOf(w)) % NUM_RX_DESC == n - w
    ensures (done % NUM_RX_DESC + NUM_RX_DESC - SlotOf(w)) % NUM_RX_DESC == done + NUM_RX_DESC - 1 - w
  {
    ModGap(n + 1, w + 1);
    ModGap(done + NUM_RX_DESC, w + 1);
    ModPeriod(done);
  }

  lemma ModGap(x: nat, y: nat)
    requires y <= x < y + NUM_RX_DESC
    ensures (x % NUM_RX_DESC + NUM_RX_DESC - y % NUM_RX_DESC) % NUM_RX_DESC == x - y
  {
    assert x / 64 == y / 64 || x / 64 == y / 64 + 1;
  }

  lemma ModPeriod(x: nat)
    ensures (x + NUM_RX_DESC) % NUM_RX_DESC == x % NUM_RX_DESC
  {
  }

  // Once the DD bit is seen, every load and store of the driver goes to a descriptor it owns.
  lemma NeverTouchesDeviceDescriptor(s: State, ts: seq<Step>)
    requires Init(s) && IsRun(s, ts)
    requires var d := Exec(s, ts).driver; d.TestEop? || d.Length? || d.Copy? || d.Clear?
    ensures Wf(Exec(s, ts)) && !DeviceOwns(Exec(s, ts), Exec(s, ts).tail)
  {
    InitInv(s);
    RunInv(s, ts);
    var s' := Exec(s, ts);
    var w := |s'.arrived|;
    SlotNext(s'.done);
    Circular(s'.done, w, s'.done + NUM_RX_DESC);
  }

  // The poll answers "no packet" exactly when every packet written has been received, and the
  // device can take another packet exactly when fewer than 63 are waiting.
  lemma PollIsExact(s: State, ts: seq<Step>)
    requires Init(s) && IsRun(s, ts)
    ensures var s' := Exec(s, ts);
      && Wf(s')
      && (s'.driver.Test? ==> (DriverStep(s').driver.Idle? <==> |s'.got| == |s'.arrived|))
      && (s'.rdh != s'.rdt <==> |s'.arrived| < s'.done + NUM_RX_DESC - 1)
  {
    InitInv(s);
    RunInv(s, ts);
    var s' := Exec(s, ts);
    SlotNext(s'.done);
    Circular(s'.done, |s'.arrived|, |s'.arrived|);
    if s'.driver.Test? && s'.done < |s'.arrived| {
      assert Full(s', s'.done);
    }
  }

  // ------------------------------------------------------------------
  // The code, with the device running between any two statements
  // ------------------------------------------------------------------

  class Receiver {
    var desc: seq<RxDesc>
    var rdh: nat
    var rdt: nat
    var tail: nat
    ghost var arrived: seq<Packet>
    ghost var got: seq<Packet>
    ghost var done: nat

    ghost function At(d: Driver): State
      reads this
    {
      State(desc, rdh, rdt, tail, d, arrived, got, done)
    }

    ghost predicate Valid()
      reads this
    {
      Inv(At(Idle))
    }

    // Any number of arrivals.
    method DeviceRuns(ghost d: Driver)
      requires Inv(At(d))
      modifies this`desc, this`rdh, this`arrived
      ensures Inv(At(d)) && old(arrived) <= arrived
    {
      var steps: int := *;
      while steps > 0
        invariant Inv(At(d)) && old(arrived) <= arrived
      {
        steps := steps - 1;
        var p: Packet := *;
        if rdh != rdt && |p| <= RXMAX {
          DeviceInv(At(d), p);
          ghost var next := Apply(At(d), Arrive(p));
          desc := desc[rdh := RxDesc(true, true, |p|, Overwrite(desc[rdh].page, p))];
          rdh := (rdh + 1) % NUM_RX_DESC;
          arrived := arrived + [p];
          assert At(d) == next;
        }
      }
    }

    // Lines 117 to 126: advance rx_desc_tail and test the DD bit.
    method Poll() returns (ready: bool)
      requires Valid()
      modifies this
      ensures Inv(At(if ready then TestEop else Idle))
      ensures old(arrived) <= arrived && got == old(got)
      ensures !ready ==> |old(got)| == |old(arrived)|
    {
      DriverReads(At(Idle));
      var temp := tail;
      tail := (tail + 1) % NUM_RX_DESC;
      DeviceRuns(Test(temp));
      DriverReads(At(Test(temp)));
      assert done < |arrived| ==> Full(At(Test(temp)), done);
      ready := desc[tail].dd;
      if !ready {
        tail := temp;
      }
    }

    // Lines 127 to 135: copy the packet out.
    method CopyOut() returns (packet: Packet)
      requires Inv(At(TestEop))
      modifies this`desc, this`rdh, this`arrived, this`got
      ensures Inv(At(Clear(|packet|))) && old(arrived) <= arrived && |old(got)| < |arrived|
      ensures packet == arrived[|old(got)|] && got == old(got) + [packet]
    {
      DriverReads(At(TestEop));
      assert desc[tail].eop;
      DeviceRuns(Length);
      DriverReads(At(Length));
      var n := desc[tail].length;
      DeviceRuns(Copy(n));
      DriverReads(At(Copy(n)));
      packet := desc[tail].page[..n];
      got := got + [packet];
    }

    // Lines 127 to 139: copy the packet out and give the descriptor back.
    method Drain() returns (packet: Packet)
      requires Inv(At(TestEop))
      modifies this
      ensures Valid() && old(arrived) <= arrived && |old(got)| < |arrived|
      ensures packet == arrived[|old(got)|] && got == old(got) + [packet]
    {
      packet := CopyOut();
      DeviceRuns(Clear(|packet|));
      GiveBack(|packet|);
    }

    method GiveBack(ghost n: nat)
      requires Inv(At(Clear(n)))
      modifies this`desc, this`rdt, this`rdh, this`arrived, this`done
      ensures Valid() && old(arrived) <= arrived
    {
      DriverClears(At(Clear(n)));
      desc := desc[tail := desc[tail].(dd := false, eop := false)];
      DeviceRuns(WriteRdt(n));
      DriverReturns(At(WriteRdt(n)));
      rdt := tail;
      done := done + 1;
    }

    // Returns the next packet the device wrote; fails only if none was waiting when it was called.
    method PciReceivePacket() returns (r: Option<Packet>)
      requires Valid()
      modifies this
      ensures Valid() && old(arrived) <= arrived
      ensures r.Some? ==> |old(got)| < |arrived| && r.value == arrived[|old(got)|] && got == old(got) + [r.value]
      ensures r.None? ==> got == old(got) && |old(got)| == |old(arrived)|
    {
      var ready := Poll();
      if !ready {
        return None;
      }
      DeviceRuns(TestEop);
      var packet := Drain();
      return Some(packet);
    }
  }
}
