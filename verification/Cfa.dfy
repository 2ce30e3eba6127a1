// The call-frame instruction interpreter of kern/libdwarf_frame.c against the row machine of section
// 6.4.2 of DWARF Version 3.  Operands are given decoded.
module Cfa {
  import opened Wrappers

  const UNDEFINED_VAL: nat := 1034
  const SAME_VAL: nat := 1035
  const CFA_COL3: nat := 1436
  const TWO64: nat := 0x1_0000_0000_0000_0000

  datatype ValueType = AtOffset | ValOffset | AtExpression | ValExpression

  // Dwarf_Regtable_Entry3
  datatype Rule = Rule(relevant: bool, kind: ValueType, regnum: nat, value: nat, block: nat)

  datatype Table = Table(cfa: Rule, rules: seq<Rule>)

  datatype Inst =
    | Nop
    | Bad                                          // an opcode the interpreter does not know
    | Advance(delta: nat)                          // advance_loc, advance_loc1, 2, 4
    | SetLoc(addr: nat)
    | Offset(reg: nat, uoff: nat)                  // offset, offset_extended
    | OffsetSf(reg: nat, soff: int)
    | ValOffsetU(reg: nat, uoff: nat)
    | ValOffsetSf(reg: nat, soff: int)
    | Restore(reg: nat)                            // restore, restore_extended
    | Undefined(reg: nat)
    | SameValue(reg: nat)
    | Register(reg: nat, reg2: nat)
    | Expression(reg: nat, len: nat, at: nat)
    | ValExpressionInst(reg: nat, len: nat, at: nat)
    | DefCfa(creg: nat, uoff: nat)
    | DefCfaSf(creg: nat, soff: int)
    | DefCfaRegister(creg: nat)
    | DefCfaOffset(uoff: nat)
    | DefCfaOffsetSf(soff: int)
    | DefCfaExpression(len: nat, at: nat)
    | Remember
    | RestoreState

  // caf, daf and pc_req of one run.
  datatype Params = Params(caf: nat, daf: int, req: nat)

  function Word(x: int): (w: nat)
    ensures w < TWO64
  {
    x % 0x1_0000_0000_0000_0000
  }

  function Half(x: nat): nat {
    x % 0x1_0000
  }

  // The register whose column the instruction sets, checked against the table size.
  function Column(i: Inst): Option<nat> {
    match i
    case Offset(r, _) => Some(r)
    case OffsetSf(r, _) => Some(r)
    case ValOffsetU(r, _) => Some(r)
    case ValOffsetSf(r, _) => Some(r)
    case Restore(r) => Some(r)
    case Undefined(r) => Some(r)
    case SameValue(r) => Some(r)
    case Register(r, _) => Some(r)
    case Expression(r, _, _) => Some(r)
    case ValExpressionInst(r, _, _) => Some(r)
    case _ => None
  }

  predicate InTable(t: Table, i: Inst) {
    Column(i).Some? ==> Column(i).value < |t.rules|
  }

  // The assignments to RL[reg]: fields an instruction does not mention keep their old value.
  function NewRule(was: Rule, i: Inst, daf: int): Rule {
    match i
    case Offset(_, u) => was.(relevant := true, kind := AtOffset, regnum := CFA_COL3, value := Word(u * daf))
    case OffsetSf(_, o) => was.(relevant := true, kind := AtOffset, regnum := CFA_COL3, value := Word(o * daf))
    case ValOffsetU(_, u) => was.(relevant := true, kind := ValOffset, regnum := CFA_COL3, value := Word(u * daf))
    case ValOffsetSf(_, o) => was.(relevant := true, kind := ValOffset, regnum := CFA_COL3, value := Word(o * daf))
    case Undefined(_) => was.(relevant := false, regnum := UNDEFINED_VAL)
    case SameValue(_) => was.(relevant := false, regnum := SAME_VAL)
    case Register(_, r) => was.(relevant := false, regnum := Half(r))
    case Expression(_, n, at) => was.(relevant := false, kind := AtExpression, value := n, block := at)
    case ValExpressionInst(_, n, at) => was.(relevant := false, kind := ValExpression, value := n, block := at)
    case _ => was
  }

  function NewCfa(was: Rule, i: Inst, daf: int): Rule {
    match i
    case DefCfa(r, u) => was.(relevant := true, kind := AtOffset, regnum := Half(r), value := Word(u))
    case DefCfaSf(r, o) => was.(relevant := true, kind := AtOffset, regnum := Half(r), value := Word(o * daf))
    case DefCfaRegister(r) => was.(regnum := Half(r))
    case DefCfaOffset(u) => was.(relevant := true, kind := AtOffset, value := Word(u))
    case DefCfaOffsetSf(o) => was.(relevant := true, kind := AtOffset, value := Word(o * daf))
    case DefCfaExpression(n, at) => was.(relevant := false, kind := AtExpression, value := n, block := at)
    case _ => was
  }

  // One rule instruction; Restore copies the column of the given table.
  function Effect(t: Table, from: Table, i: Inst, daf: int): Table
    requires InTable(t, i) && |from.rules| == |t.rules|
  {
    if i.Restore? then t.(rules := t.rules[i.reg := from.rules[i.reg]])
    else if Column(i).Some? then
      var r := Column(i).value;
      t.(rules := t.rules[r := NewRule(t.rules[r], i, daf)])
    else t.(cfa := NewCfa(t.cfa, i, daf))
  }

  // ------------------------------------------------------------------
  // _dwarf_frame_run_inst
  // ------------------------------------------------------------------

  datatype Status = Going | Stopped | RegTooHigh | ExecError | AssertFailed

  // t is the table behind rt; shadow the one global table behind both init_rt and saved_rt; saved says
  // that saved_rt is no longer NULL.
  datatype State = State(t: Table, shadow: Table, saved: bool, pc: nat, rowPc: nat, status: Status)

  predicate Wf(s: State) {
    |s.t.rules| == |s.shadow.rules|
  }

  function Moved(s: State, pc: nat, p: Params): State {
    s.(pc := pc, status := if p.req < pc then Stopped else Going)
  }

  function Step(s: State, i: Inst, p: Params): (s': State)
    requires Wf(s)
    ensures Wf(s') && |s'.t.rules| == |s.t.rules|
  {
    match i
    case Nop => s
    case Bad => s.(status := ExecError)
    case Advance(d) => Moved(s, Word(s.pc + d * p.caf), p)
    case SetLoc(a) => Moved(s, Word(a), p)
    case Remember => s.(shadow := s.t, saved := true)
    case RestoreState =>
      if s.saved then s.(rowPc := s.pc, t := s.shadow) else s.(rowPc := s.pc, status := AssertFailed)
    case _ =>
      var s1 := if i.SameValue? then s else s.(rowPc := s.pc);
      if InTable(s.t, i) then s1.(t := Effect(s.t, s.shadow, i, p.daf)) else s1.(status := RegTooHigh)
  }

  function RunFrom(s: State, insts: seq<Inst>, p: Params): (s': State)
    requires Wf(s)
    ensures Wf(s') && |s'.t.rules| == |s.t.rules|
    decreases |insts|
  {
    if insts == [] || s.status != Going then s else RunFrom(Step(s, insts[0], p), insts[1..], p)
  }

  function Start(t: Table, pc: nat): (s: State)
    ensures Wf(s)
  {
    State(t, t, false, pc, pc, Going)
  }

  function RunInst(t: Table, insts: seq<Inst>, pc: nat, p: Params): (s: State)
    ensures Wf(s) && |s.t.rules| == |t.rules|
  {
    RunFrom(Start(t, pc), insts, p)
  }

  // ------------------------------------------------------------------
  // The row machine of the standard
  // ------------------------------------------------------------------

  // A row, and the stack of remember_state.  The initial rules never change.
  datatype Row = Row(t: Table, stack: seq<Table>)

  function RowStep(row: Row, init: Table, i: Inst, daf: int): Option<Row>
    requires |init.rules| == |row.t.rules|
  {
    match i
    case Nop => Some(row)
    case Bad => None
    case Advance(_) => Some(row)
    case SetLoc(_) => Some(row)
    case Remember => Some(row.(stack := [row.t] + row.stack))
    case RestoreState => if row.stack == [] then None else Some(Row(row.stack[0], row.stack[1..]))
    case _ => if InTable(row.t, i) then Some(row.(t := Effect(row.t, init, i, daf))) else None
  }

  ghost predicate SameSizes(row: Row, init: Table) {
    |init.rules| == |row.t.rules| && forall k :: 0 <= k < |row.stack| ==> |row.stack[k].rules| == |init.rules|
  }

  lemma RowStepSizes(row: Row, init: Table, i: Inst, daf: int)
    requires SameSizes(row, init)
    ensures RowStep(row, init, i, daf).Some? ==> SameSizes(RowStep(row, init, i, daf).value, init)
  {
  }

  ghost function RowRun(row: Row, init: Table, insts: seq<Inst>, daf: int): Option<Row>
    requires SameSizes(row, init)
    decreases |insts|
  {
    if insts == [] then Some(row)
    else
      RowStepSizes(row, init, insts[0], daf);
      var r := RowStep(row, init, insts[0], daf);
      if r.None? then None else RowRun(r.value, init, insts[1..], daf)
  }

  // The location after an instruction, of 64 bits.
  function Location(pc: nat, i: Inst, p: Params): nat {
    match i
    case Advance(d) => (pc + d * p.caf) % 0x1_0000_0000_0000_0000
    case SetLoc(a) => a % 0x1_0000_0000_0000_0000
    case _ => pc
  }

  predicate Moves(i: Inst) {
    i.Advance? || i.SetLoc?
  }

  // The instructions before the first that moves the location past pc_req.
  function Before(insts: seq<Inst>, pc: nat, p: Params): (r: seq<Inst>)
    ensures r <= insts
  {
    if insts == [] || (Moves(insts[0]) && p.req < Location(pc, insts[0], p)) then []
    else [insts[0]] + Before(insts[1..], Location(pc, insts[0], p), p)
  }

  // ------------------------------------------------------------------
  // The code against the row machine
  // ------------------------------------------------------------------

  predicate Errored(s: State) {
    s.status != Going && s.status != Stopped
  }

  // Same table, or an error on both sides.
  predicate Same(s: State, r: Option<Row>) {
    (r.None? <==> Errored(s)) && (r.Some? ==> s.t == r.value.t)
  }

  // Code and row machine agree after the first k instructions, for every k.
  ghost predicate AgreeThroughout(s: State, row: Row, init: Table, insts: seq<Inst>, p: Params)
    requires Wf(s) && SameSizes(row, init)
  {
    forall k :: 0 <= k <= |insts| ==> AgreeAfter(s, row, init, insts[..k], p)
  }

  ghost predicate AgreeAfter(s: State, row: Row, init: Table, insts: seq<Inst>, p: Params)
    requires Wf(s) && SameSizes(row, init)
  {
    Same(RunFrom(s, insts, p), RowRun(row, init, Before(insts, s.pc, p), p.daf))
  }

  // The one shadow table holds what the instruction asks for: the initial rule of a restored column, the
  // rules remembered last and not yet restored.
  predicate ShadowServes(s: State, row: Row, init: Table, i: Inst)
    requires Wf(s) && |init.rules| == |s.t.rules|
  {
    match i
    case Restore(r) => r < |s.t.rules| ==> s.shadow.rules[r] == init.rules[r]
    case RestoreState => if row.stack == [] then !s.saved else s.saved && s.shadow == row.stack[0]
    case _ => true
  }

  predicate PastEnd(pc: nat, i: Inst, p: Params) {
    Moves(i) && p.req < Location(pc, i, p)
  }

  // And so for each instruction executed.
  ghost predicate ShadowServesRun(s: State, row: Row, init: Table, insts: seq<Inst>, p: Params)
    requires Wf(s) && SameSizes(row, init) && |row.t.rules| == |s.t.rules|
    decreases |insts|
  {
    insts == [] || PastEnd(s.pc, insts[0], p) ||
    (RowStepSizes(row, init, insts[0], p.daf);
     ShadowServes(s, row, init, insts[0])
     && (RowStep(row, init, insts[0], p.daf).Some? && Step(s, insts[0], p).status == Going ==>
           ShadowServesRun(Step(s, insts[0], p), RowStep(row, init, insts[0], p.daf).value, init, insts[1..], p)))
  }

  lemma EndsTogether(s: State, row: Row, init: Table, insts: seq<Inst>, p: Params)
    requires Wf(s) && SameSizes(row, init) && s.status == Going && s.t == row.t
    requires insts == [] || PastEnd(s.pc, insts[0], p)
    ensures AgreeAfter(s, row, init, insts, p)
  {
    if insts != [] {
      var s1 := Step(s, insts[0], p);
      assert RunFrom(s1, insts[1..], p) == s1;
    }
  }

  lemma StepAgrees(s: State, row: Row, init: Table, i: Inst, p: Params)
    requires Wf(s) && SameSizes(row, init) && s.status == Going && s.t == row.t && !PastEnd(s.pc, i, p)
    ensures AgreeAfter(s, row, init, [i], p) <==> ShadowServes(s, row, init, i)
    ensures ShadowServes(s, row, init, i) ==> Same(Step(s, i, p), RowStep(row, init, i, p.daf))
    ensures Step(s, i, p).status == Going ==> Step(s, i, p).pc == Location(s.pc, i, p)
    ensures Step(s, i, p).status != Stopped
  {
    RowStepSizes(row, init, i, p.daf);
    var s1, r1 := Step(s, i, p), RowStep(row, init, i, p.daf);
    assert [i][1..] == [] && RunFrom(s1, [], p) == s1 && Before([i], s.pc, p) == [i];
    assert RowRun(row, init, [i], p.daf) == r1 by {
      assert r1.Some? ==> RowRun(r1.value, init, [i][1..], p.daf) == r1;
    }
    assert AgreeAfter(s, row, init, [i], p) <==> Same(s1, r1);
    if i.Restore? && i.reg < |s.t.rules| {
      assert s1.t.rules[i.reg] == s.shadow.rules[i.reg] && r1.value.t.rules[i.reg] == init.rules[i.reg];
    }
  }

  // One instruction further on both sides.
  lemma AgreeLater(s: State, row: Row, init: Table, insts: seq<Inst>, p: Params)
    requires Wf(s) && SameSizes(row, init) && s.status == Going && insts != [] && !PastEnd(s.pc, insts[0], p)
    requires Same(Step(s, insts[0], p), RowStep(row, init, insts[0], p.daf))
    requires var s1 := Step(s, insts[0], p); s1.status != Stopped && (s1.status == Going ==> s1.pc == Location(s.pc, insts[0], p))
    ensures var s1, r1 := Step(s, insts[0], p), RowStep(row, init, insts[0], p.daf);
      && (r1.None? ==> AgreeAfter(s, row, init, insts, p))
      && (r1.Some? ==> SameSizes(r1.value, init))
      && (r1.Some? ==> (AgreeAfter(s, row, init, insts, p) <==> AgreeAfter(s1, r1.value, init, insts[1..], p)))
  {
    RowStepSizes(row, init, insts[0], p.daf);
    var pre := Before(insts, s.pc, p);
    assert pre[0] == insts[0] && pre[1..] == Before(insts[1..], Location(s.pc, insts[0], p), p);
  }

  // For every program: the interpreter agrees with the row machine after each of its instructions exactly
  // when its one shadow table holds, at each restore and each restore_state executed, what the standard
  // asks for.
  lemma {:induction false} AgreeIffServes(s: State, row: Row, init: Table, insts: seq<Inst>, p: Params)
    requires Wf(s) && SameSizes(row, init) && s.status == Going && s.t == row.t
    ensures AgreeThroughout(s, row, init, insts, p) <==> ShadowServesRun(s, row, init, insts, p)
    decreases |insts|
  {
    if insts == [] || PastEnd(s.pc, insts[0], p) {
      forall k | 0 <= k <= |insts| ensures AgreeAfter(s, row, init, insts[..k], p) {
        EndsTogether(s, row, init, insts[..k], p);
      }
    } else {
      StepAgrees(s, row, init, insts[0], p);
      assert insts[..1] == [insts[0]];
      if ShadowServes(s, row, init, insts[0]) {
        AgreeSplits(s, row, init, insts, p);
        var r1 := RowStep(row, init, insts[0], p.daf);
        if r1.Some? {
          RowStepSizes(row, init, insts[0], p.daf);
          AgreeIffServes(Step(s, insts[0], p), r1.value, init, insts[1..], p);
        }
      } else {
        assert !AgreeAfter(s, row, init, insts[..1], p);
      }
    }
  }

  lemma AgreeSplits(s: State, row: Row, init: Table, insts: seq<Inst>, p: Params)
    requires Wf(s) && SameSizes(row, init) && s.status == Going && s.t == row.t
    requires insts != [] && !PastEnd(s.pc, insts[0], p) && ShadowServes(s, row, init, insts[0])
    ensures var s1, r1 := Step(s, insts[0], p), RowStep(row, init, insts[0], p.daf);
      && (r1.None? ==> AgreeThroughout(s, row, init, insts, p))
      && (r1.Some? ==> SameSizes(r1.value, init))
      && (r1.Some? ==>
            (AgreeThroughout(s, row, init, insts, p) <==> AgreeThroughout(s1, r1.value, init, insts[1..], p)))
  {
    StepAgrees(s, row, init, insts[0], p);
    RowStepSizes(row, init, insts[0], p.daf);
    EndsTogether(s, row, init, insts[..0], p);
    var s1, r1 := Step(s, insts[0], p), RowStep(row, init, insts[0], p.daf);
    forall k | 1 <= k <= |insts|
      ensures r1.None? ==> AgreeAfter(s, row, init, insts[..k], p)
      ensures r1.Some? ==> (AgreeAfter(s, row, init, insts[..k], p) <==> AgreeAfter(s1, r1.value, init, insts[1..][..k - 1], p))
    {
      assert insts[..k][1..] == insts[1..][..k - 1];
      AgreeLater(s, row, init, insts[..k], p);
    }
    if r1.Some? && AgreeThroughout(s, row, init, insts, p) {
      forall j | 0 <= j <= |insts[1..]| ensures AgreeAfter(s1, r1.value, init, insts[1..][..j], p) {
        assert AgreeAfter(s, row, init, insts[..j + 1], p);
      }
    }
  }

  // In particular at the end.
  lemma ServedRunIsRows(s: State, row: Row, init: Table, insts: seq<Inst>, p: Params)
    requires Wf(s) && SameSizes(row, init) && s.status == Going && s.t == row.t
    requires ShadowServesRun(s, row, init, insts, p)
    ensures Same(RunFrom(s, insts, p), RowRun(row, init, Before(insts, s.pc, p), p.daf))
  {
    AgreeIffServes(s, row, init, insts, p);
    assert insts[..|insts|] == insts;
    assert AgreeAfter(s, row, init, insts[..|insts|], p);
  }

  // Enough for that, and visible in the program: no nested remember_state, each restore_state closes one,
  // and no restore once one was seen.
  predicate Simple(insts: seq<Inst>, open: bool, touched: bool) {
    if insts == [] then true
    else match insts[0]
      case Remember => !open && Simple(insts[1..], true, true)
      case RestoreState => open && Simple(insts[1..], false, touched)
      case Restore(_) => !touched && Simple(insts[1..], open, touched)
      case _ => Simple(insts[1..], open, touched)
  }

  // The code's two tables and the row machine's while such a program runs.
  ghost predicate Matches(s: State, row: Row, init: Table, open: bool, touched: bool) {
    && Wf(s) && s.status == Going && SameSizes(row, init) && s.t == row.t
    && (!touched ==> s.shadow == init)
    && (open ==> s.saved && row.stack == [s.shadow])
    && (!open ==> row.stack == [])
  }

  lemma StepMatches(s: State, row: Row, init: Table, i: Inst, p: Params, open: bool, touched: bool)
    requires Matches(s, row, init, open, touched) && Simple([i], open, touched) && !PastEnd(s.pc, i, p)
    ensures var s', r := Step(s, i, p), RowStep(row, init, i, p.daf);
      && ShadowServes(s, row, init, i)
      && s'.pc == Location(s.pc, i, p)
      && (r.Some? ==> Matches(s', r.value, init, i.Remember? || (open && !i.RestoreState?), i.Remember? || touched))
  {
  }

  lemma SimpleHead(insts: seq<Inst>, open: bool, touched: bool)
    requires insts != [] && Simple(insts, open, touched)
    ensures Simple([insts[0]], open, touched)
    ensures Simple(insts[1..], insts[0].Remember? || (open && !insts[0].RestoreState?), insts[0].Remember? || touched)
  {
    assert [insts[0]][1..] == [];
  }

  lemma {:induction false} SimpleIsServed(s: State, row: Row, init: Table, insts: seq<Inst>, p: Params,
      open: bool, touched: bool)
    requires Matches(s, row, init, open, touched) && Simple(Before(insts, s.pc, p), open, touched)
    ensures ShadowServesRun(s, row, init, insts, p)
    decreases |insts|
  {
    if insts != [] && !PastEnd(s.pc, insts[0], p) {
      var pre, i := Before(insts, s.pc, p), insts[0];
      assert pre[0] == i && pre[1..] == Before(insts[1..], Location(s.pc, i, p), p);
      SimpleHead(pre, open, touched);
      StepMatches(s, row, init, i, p, open, touched);
      var r := RowStep(row, init, i, p.daf);
      if r.Some? {
        SimpleIsServed(Step(s, i, p), r.value, init, insts[1..], p,
                       i.Remember? || (open && !i.RestoreState?), i.Remember? || touched);
      }
    }
  }

  // For such programs the loop computes exactly the rows of the instructions before the first advance past
  // pc_req.
  lemma RunMatches(s: State, row: Row, init: Table, insts: seq<Inst>, p: Params, open: bool, touched: bool)
    requires Matches(s, row, init, open, touched) && Simple(Before(insts, s.pc, p), open, touched)
    ensures Same(RunFrom(s, insts, p), RowRun(row, init, Before(insts, s.pc, p), p.daf))
  {
    SimpleIsServed(s, row, init, insts, p, open, touched);
    ServedRunIsRows(s, row, init, insts, p);
  }

  // One whole run started from t: whether its shadow serves, and the rows of the standard.
  ghost predicate Served(t: Table, insts: seq<Inst>, pc: nat, p: Params) {
    ShadowServesRun(Start(t, pc), Row(t, []), t, insts, p)
  }

  ghost function RowsOf(t: Table, insts: seq<Inst>, pc: nat, p: Params): Option<Row> {
    RowRun(Row(t, []), t, Before(insts, pc, p), p.daf)
  }

  lemma SimpleServed(t: Table, insts: seq<Inst>, pc: nat, p: Params)
    requires Simple(Before(insts, pc, p), false, false)
    ensures Served(t, insts, pc, p)
  {
    SimpleIsServed(Start(t, pc), Row(t, []), t, insts, p, false, false);
  }

  lemma RunIsRows(t: Table, insts: seq<Inst>, pc: nat, p: Params)
    requires Served(t, insts, pc, p)
    ensures Same(RunInst(t, insts, pc, p), RowsOf(t, insts, pc, p))
  {
    ServedRunIsRows(Start(t, pc), Row(t, []), t, insts, p);
  }

  // ------------------------------------------------------------------
  // _dwarf_frame_get_internal_table
  // ------------------------------------------------------------------

  datatype Frame = Frame(cie: seq<Inst>, fde: seq<Inst>, initloc: nat, caf: nat, daf: int)

  function Blank(): Rule {
    Rule(false, AtOffset, 0, 0, 0)
  }

  function Initial(n: nat): Table {
    Table(Blank(), seq(n, _ => Blank().(regnum := SAME_VAL)))
  }

  // ~0ULL
  const LAST: nat := 0xffff_ffff_ffff_ffff

  function CieParams(f: Frame): Params {
    Params(f.caf, f.daf, LAST)
  }

  function FdeParams(f: Frame, req: nat): Params {
    Params(f.caf, f.daf, req)
  }

  function InternalTable(f: Frame, n: nat, req: nat): (s: State)
    ensures Wf(s)
  {
    var c := RunInst(Initial(n), f.cie, 0, CieParams(f));
    if c.status != Going && c.status != Stopped then c
    else if req >= f.initloc then RunInst(c.t, f.fde, f.initloc, FdeParams(f, req))
    else c
  }

  // What the standard asks for: the rules of the CIE, then, started from those as initial rules, the
  // instructions of the FDE up to the first advance past pc_req.
  ghost function RowFor(f: Frame, n: nat, req: nat): Option<Table> {
    var c := RowsOf(Initial(n), f.cie, 0, CieParams(f));
    if c.None? then None
    else if req < f.initloc then Some(c.value.t)
    else
      var r := RowsOf(c.value.t, f.fde, f.initloc, FdeParams(f, req));
      if r.None? then None else Some(r.value.t)
  }

  // The shadow serves both runs; the second starts from the CIE's rules.
  ghost predicate TableServed(f: Frame, n: nat, req: nat) {
    var c := RunInst(Initial(n), f.cie, 0, CieParams(f));
    && Served(Initial(n), f.cie, 0, CieParams(f))
    && (!Errored(c) && req >= f.initloc ==> Served(c.t, f.fde, f.initloc, FdeParams(f, req)))
  }

  lemma TableIsRow(f: Frame, n: nat, req: nat)
    requires TableServed(f, n, req)
    ensures var s, r := InternalTable(f, n, req), RowFor(f, n, req);
      (r.None? <==> Errored(s)) && (r.Some? ==> s.t == r.value)
  {
    RunIsRows(Initial(n), f.cie, 0, CieParams(f));
    var c := RunInst(Initial(n), f.cie, 0, CieParams(f));
    if !Errored(c) && req >= f.initloc {
      RunIsRows(c.t, f.fde, f.initloc, FdeParams(f, req));
    }
  }

  lemma SimpleTableServed(f: Frame, n: nat, req: nat)
    requires Simple(Before(f.cie, 0, CieParams(f)), false, false)
    requires Simple(Before(f.fde, f.initloc, FdeParams(f, req)), false, false)
    ensures TableServed(f, n, req)
  {
    SimpleServed(Initial(n), f.cie, 0, CieParams(f));
    SimpleServed(RunInst(Initial(n), f.cie, 0, CieParams(f)).t, f.fde, f.initloc, FdeParams(f, req));
  }

  // ---------------- row_pc

  lemma {:induction false} RowPcInRange(s: State, insts: seq<Inst>, p: Params)
    requires Wf(s) && s.rowPc <= p.req && (s.status == Going ==> s.pc <= p.req)
    ensures RunFrom(s, insts, p).rowPc <= p.req
    decreases |insts|
  {
    if insts != [] && s.status == Going {
      RowPcInRange(Step(s, insts[0], p), insts[1..], p);
    }
  }

  // The row a caller gets starts at or before the address asked for.
  lemma RowPcBound(f: Frame, n: nat, req: nat)
    requires f.initloc <= req <= LAST
    ensures var s := InternalTable(f, n, req); !Errored(s) ==> s.rowPc <= req
  {
    var c := RunInst(Initial(n), f.cie, 0, CieParams(f));
    if !Errored(c) {
      RowPcInRange(Start(c.t, f.initloc), f.fde, FdeParams(f, req));
    }
  }

  // Instructions that start a row: the rule instructions except same_value, and restore_state.
  predicate StartsRow(i: Inst) {
    !(i.Nop? || i.Bad? || i.Remember? || i.SameValue? || Moves(i))
  }

  // The location once insts have been executed from pc.
  function LocationAfter(pc: nat, insts: seq<Inst>, p: Params): nat
    decreases |insts|
  {
    if insts == [] then pc else LocationAfter(Location(pc, insts[0], p), insts[1..], p)
  }

  // The location of the last instruction of insts that starts a row; start if there is none.
  ghost predicate IsRowStart(r: nat, start: nat, pc: nat, insts: seq<Inst>, p: Params) {
    if forall k :: 0 <= k < |insts| ==> !StartsRow(insts[k]) then r == start
    else exists k :: 0 <= k < |insts| && LastRowStart(insts, k) && r == LocationAfter(pc, insts[..k], p)
  }

  ghost predicate LastRowStart(insts: seq<Inst>, k: nat)
    requires k < |insts|
  {
    StartsRow(insts[k]) && forall j :: k < j < |insts| ==> !StartsRow(insts[j])
  }

  lemma RowStartStep(r: nat, start: nat, pc: nat, i: Inst, rest: seq<Inst>, p: Params)
    requires IsRowStart(r, if StartsRow(i) then pc else start, Location(pc, i, p), rest, p)
    ensures IsRowStart(r, start, pc, [i] + rest, p)
  {
    var insts := [i] + rest;
    assert insts[..0] == [] && insts[1..] == rest;
    if exists k :: 0 <= k < |rest| && StartsRow(rest[k]) {
      var k :| 0 <= k < |rest| && LastRowStart(rest, k) && r == LocationAfter(Location(pc, i, p), rest[..k], p);
      assert StartsRow(insts[k + 1]) && forall j :: k + 1 < j < |insts| ==> insts[j] == rest[j - 1];
      assert LastRowStart(insts, k + 1);
      assert insts[..k + 1][0] == i && insts[..k + 1][1..] == rest[..k];
    } else if StartsRow(i) {
      assert insts[0] == i && forall j :: 0 < j < |insts| ==> insts[j] == rest[j - 1];
      assert LastRowStart(insts, 0);
    } else {
      assert forall j :: 0 <= j < |insts| ==> insts[j] == if j == 0 then i else rest[j - 1];
    }
  }

  lemma RowPcOfStep(s: State, i: Inst, p: Params)
    requires Wf(s) && s.status == Going
    ensures var s1 := Step(s, i, p);
      && (s1.status == Going || s1.status == Stopped ==>
            s1.pc == Location(s.pc, i, p) && s1.rowPc == if StartsRow(i) then s.pc else s.rowPc)
      && (s1.status == Stopped <==> PastEnd(s.pc, i, p))
  {
  }

  lemma RunAfterStop(s: State, insts: seq<Inst>, p: Params)
    requires Wf(s) && s.status != Going
    ensures RunFrom(s, insts, p) == s
  {
  }

  // After a run without error row_pc is the location of the last rule or restore_state instruction
  // executed, other than same_value, or the location the run started with.
  lemma {:induction false} RowPcOfRun(s: State, insts: seq<Inst>, p: Params)
    requires Wf(s) && s.status == Going && !Errored(RunFrom(s, insts, p))
    ensures IsRowStart(RunFrom(s, insts, p).rowPc, s.rowPc, s.pc, Before(insts, s.pc, p), p)
    decreases |insts|
  {
    hide Step;
    if insts == [] {
      NoRowStart(s.rowPc, s.pc, p);
    } else {
      var i, s1 := insts[0], Step(s, insts[0], p);
      RowPcOfStep(s, i, p);
      if s1.status == Going {
        hide IsRowStart;
        RowPcOfRun(s1, insts[1..], p);
        RowStartStep(RunFrom(s, insts, p).rowPc, s.rowPc, s.pc, i, Before(insts[1..], s1.pc, p), p);
      } else {
        RunAfterStop(s1, insts[1..], p);
        NoRowStart(s.rowPc, s.pc, p);
      }
    }
  }

  lemma NoRowStart(start: nat, pc: nat, p: Params)
    ensures IsRowStart(start, start, pc, [], p)
  {
  }

  // So the row a caller gets starts where its FDE last changed a rule, same_value apart, or at initloc.
  lemma RowPcIsRowStart(f: Frame, n: nat, req: nat)
    requires f.initloc <= req && !Errored(InternalTable(f, n, req))
    ensures IsRowStart(InternalTable(f, n, req).rowPc, f.initloc, f.initloc,
                       Before(f.fde, f.initloc, FdeParams(f, req)), FdeParams(f, req))
  {
    var c := RunInst(Initial(n), f.cie, 0, CieParams(f));
    RowPcOfRun(Start(c.t, f.initloc), f.fde, FdeParams(f, req));
  }

  // ---------------- where sharing one shadow shows

  // restore after remember_state gives the remembered rule, so it is right exactly when that is the
  // initial one.
  lemma RestoreAfterRemember(s: State, init: Table, r: nat, p: Params)
    requires Wf(s) && s.status == Going && |init.rules| == |s.t.rules| && r < |s.t.rules|
    ensures var code, row := RunFrom(s, [Remember, Restore(r)], p), RowRun(Row(s.t, []), init, [Remember, Restore(r)], p.daf);
      row.Some? && (code.t == row.value.t <==> s.t.rules[r] == init.rules[r])
  {
    hide RunFrom, RowRun;
    var prog := [Remember, Restore(r)];
    var s1 := Step(s, prog[0], p);
    var s2 := Step(s1, prog[1], p);
    UnrollCode(s, prog, p);
    UnrollCode(s1, prog[1..], p);
    var q := Row(s.t, []);
    var q1 := RowStep(q, init, prog[0], p.daf).value;
    var q2 := RowStep(q1, init, prog[1], p.daf).value;
    UnrollRow(q, init, prog, p.daf);
    UnrollRow(q1, init, prog[1..], p.daf);
    assert s2.t.rules[r] == s.t.rules[r] && q2.t.rules[r] == init.rules[r];
  }

  function Nested(off: nat): seq<Inst> {
    [Remember, DefCfaOffset(off), Remember, RestoreState, RestoreState]
  }

  lemma NestedCode(s: State, off: nat, p: Params)
    requires Wf(s) && s.status == Going
    ensures RunFrom(s, Nested(off), p).t == s.t.(cfa := NewCfa(s.t.cfa, DefCfaOffset(off), p.daf))
  {
    hide RunFrom, NewCfa;
    var prog := Nested(off);
    var s1 := Step(s, prog[0], p);
    var s2 := Step(s1, prog[1], p);
    var s3 := Step(s2, prog[2], p);
    var s4 := Step(s3, prog[3], p);
    UnrollCode(s, prog, p);
    UnrollCode(s1, prog[1..], p);
    UnrollCode(s2, prog[2..], p);
    UnrollCode(s3, prog[3..], p);
    UnrollCode(s4, prog[4..], p);
    assert Step(s4, prog[4], p).t == s2.t;
  }

  lemma NestedRows(t: Table, init: Table, off: nat, daf: int)
    requires |init.rules| == |t.rules|
    ensures var row := RowRun(Row(t, []), init, Nested(off), daf); row.Some? && row.value.t == t
  {
    hide RowRun, NewCfa;
    var prog, q := Nested(off), Row(t, []);
    var q1 := RowStep(q, init, prog[0], daf).value;
    var q2 := RowStep(q1, init, prog[1], daf).value;
    var q3 := RowStep(q2, init, prog[2], daf).value;
    var q4 := RowStep(q3, init, prog[3], daf).value;
    UnrollRow(q, init, prog, daf);
    UnrollRow(q1, init, prog[1..], daf);
    UnrollRow(q2, init, prog[2..], daf);
    UnrollRow(q3, init, prog[3..], daf);
    UnrollRow(q4, init, prog[4..], daf);
    assert RowStep(q4, init, prog[4], daf).value.t == t;
  }

  // With a nested remember_state the outer rules are gone: two restore_states give the inner ones twice.
  lemma NestedRemember(s: State, init: Table, off: nat, p: Params)
    requires Wf(s) && s.status == Going && |init.rules| == |s.t.rules|
    ensures var code, row := RunFrom(s, Nested(off), p), RowRun(Row(s.t, []), init, Nested(off), p.daf);
      row.Some? && (code.t == row.value.t <==> NewCfa(s.t.cfa, DefCfaOffset(off), p.daf) == s.t.cfa)
  {
    hide RunFrom, RowRun, NewCfa;
    NestedCode(s, off, p);
    NestedRows(s.t, init, off, p.daf);
  }

  lemma UnrollCode(s: State, insts: seq<Inst>, p: Params)
    requires Wf(s) && insts != [] && s.status == Going
    ensures RunFrom(s, insts, p) == RunFrom(Step(s, insts[0], p), insts[1..], p)
    ensures insts[1..] == [] ==> RunFrom(s, insts, p) == Step(s, insts[0], p)
  {
  }

  lemma UnrollRow(row: Row, init: Table, insts: seq<Inst>, daf: int)
    requires SameSizes(row, init) && insts != [] && RowStep(row, init, insts[0], daf).Some?
    ensures SameSizes(RowStep(row, init, insts[0], daf).value, init)
    ensures RowRun(row, init, insts, daf) == RowRun(RowStep(row, init, insts[0], daf).value, init, insts[1..], daf)
    ensures insts[1..] == [] ==> RowRun(row, init, insts, daf) == RowStep(row, init, insts[0], daf)
  {
    RowStepSizes(row, init, insts[0], daf);
  }

  // ------------------------------------------------------------------
  // What the rules mean
  // ------------------------------------------------------------------

  // The rules of section 6.4.1: how to find the previous value of a register, and the CFA.
  datatype Meaning =
    | IsUndefined | IsSame
    | AtCfa(n: int) | IsCfa(n: int)              // offset(N), val_offset(N)
    | InRegister(r: nat)
    | AtExpr(len: nat, at: nat) | IsExpr(len: nat, at: nat)

  datatype CfaMeaning = RegPlus(r: nat, n: int) | CfaExpr(len: nat, at: nat)

  datatype Meanings = Meanings(cfa: CfaMeaning, cols: seq<Meaning>)

  // The signed number with the 64 bits of w.
  function Signed(w: nat): int {
    if w < 0x8000_0000_0000_0000 then w else w - 0x1_0000_0000_0000_0000
  }

  predicate FitsSigned(x: int) {
    -0x8000_0000_0000_0000 <= x < 0x8000_0000_0000_0000
  }

  lemma SignedWord(x: int)
    ensures Signed(Word(x)) == x <==> FitsSigned(x)
  {
  }

  // How a record is read: by its value type, then by the special register numbers; offsets are signed.
  function ReadRule(r: Rule): Meaning {
    if r.kind == AtExpression then AtExpr(r.value, r.block)
    else if r.kind == ValExpression then IsExpr(r.value, r.block)
    else if r.regnum == UNDEFINED_VAL then IsUndefined
    else if r.regnum == SAME_VAL then IsSame
    else if r.regnum == CFA_COL3 then 
      (if r.kind == ValOffset then IsCfa(Signed(r.value)) else AtCfa(Signed(r.value)))
    else InRegister(r.regnum)
  }

  function ReadCfa(r: Rule): CfaMeaning {
    if r.kind == AtExpression then CfaExpr(r.value, r.block) else RegPlus(r.regnum, Signed(r.value))
  }

  function ReadTable(t: Table): (m: Meanings)
    ensures |m.cols| == |t.rules|
  {
    Meanings(ReadCfa(t.cfa), seq(|t.rules|, k requires 0 <= k < |t.rules| => ReadRule(t.rules[k])))
  }

  function Put(m: Meanings, r: nat, x: Meaning): (m': Option<Meanings>)
    ensures m'.Some? ==> |m'.value.cols| == |m.cols|
  {
    if r < |m.cols| then Some(m.(cols := m.cols[r := x])) else None
  }

  // The instructions of section 6.4.2 on meanings.  None: no such column, or def_cfa_register and
  // def_cfa_offset when the CFA is not a register and an offset.
  function Means(m: Meanings, init: Meanings, i: Inst, daf: int): (m': Option<Meanings>)
    requires |init.cols| == |m.cols|
    ensures m'.Some? ==> |m'.value.cols| == |m.cols|
  {
    match i
    case Offset(r, u) => Put(m, r, AtCfa(u * daf))
    case OffsetSf(r, o) => Put(m, r, AtCfa(o * daf))
    case ValOffsetU(r, u) => Put(m, r, IsCfa(u * daf))
    case ValOffsetSf(r, o) => Put(m, r, IsCfa(o * daf))
    case Restore(r) => if r < |init.cols| then Put(m, r, init.cols[r]) else None
    case Undefined(r) => Put(m, r, IsUndefined)
    case SameValue(r) => Put(m, r, IsSame)
    case Register(r, r2) => Put(m, r, InRegister(r2))
    case Expression(r, n, at) => Put(m, r, AtExpr(n, at))
    case ValExpressionInst(r, n, at) => Put(m, r, IsExpr(n, at))
    case DefCfa(r, u) => Some(m.(cfa := RegPlus(r, u)))
    case DefCfaSf(r, o) => Some(m.(cfa := RegPlus(r, o * daf)))
    case DefCfaRegister(r) => if m.cfa.CfaExpr? then None else Some(m.(cfa := RegPlus(r, m.cfa.n)))
    case DefCfaOffset(u) => if m.cfa.CfaExpr? then None else Some(m.(cfa := RegPlus(m.cfa.r, u)))
    case DefCfaOffsetSf(o) => if m.cfa.CfaExpr? then None else Some(m.(cfa := RegPlus(m.cfa.r, o * daf)))
    case DefCfaExpression(n, at) => Some(m.(cfa := CfaExpr(n, at)))
    case _ => Some(m)
  }

  predicate IsExpression(r: Rule) {
    r.kind == AtExpression || r.kind == ValExpression
  }

  // The value type survives undefined, same_value and register; register numbers have 16 bits, and in a
  // column three of them are taken; offsets have 64 bits.
  predicate ReadableRule(was: Rule, i: Inst, daf: int) {
    match i
    case Offset(_, u) => FitsSigned(u * daf)
    case OffsetSf(_, o) => FitsSigned(o * daf)
    case ValOffsetU(_, u) => FitsSigned(u * daf)
    case ValOffsetSf(_, o) => FitsSigned(o * daf)
    case Undefined(_) => !IsExpression(was)
    case SameValue(_) => !IsExpression(was)
    case Register(_, r2) =>
      !IsExpression(was) && r2 < 0x1_0000 && r2 != UNDEFINED_VAL && r2 != SAME_VAL && r2 != CFA_COL3
    case _ => true
  }

  predicate ReadableCfa(i: Inst, daf: int) {
    match i
    case DefCfa(r, u) => r < 0x1_0000 && FitsSigned(u)
    case DefCfaSf(r, o) => r < 0x1_0000 && FitsSigned(o * daf)
    case DefCfaRegister(r) => r < 0x1_0000
    case DefCfaOffset(u) => FitsSigned(u)
    case DefCfaOffsetSf(o) => FitsSigned(o * daf)
    case _ => true
  }

  predicate Readable(t: Table, i: Inst, daf: int)
    requires InTable(t, i)
  {
    if Column(i).Some? then ReadableRule(t.rules[Column(i).value], i, daf) else ReadableCfa(i, daf)
  }

  // One column changes.
  lemma ReadUpdate(t: Table, r: nat, x: Rule)
    requires r < |t.rules|
    ensures ReadTable(t.(rules := t.rules[r := x])) == ReadTable(t).(cols := ReadTable(t).cols[r := ReadRule(x)])
  {
  }

  lemma ColumnsEqual(m: Meanings, r: nat, a: Meaning, b: Meaning)
    requires r < |m.cols|
    ensures m.(cols := m.cols[r := a]) == m.(cols := m.cols[r := b]) <==> a == b
  {
    assert m.cols[r := a][r] == a && m.cols[r := b][r] == b;
  }

  lemma HalfIsIdentity(r: nat)
    ensures Half(r) == r <==> r < 0x1_0000
  {
  }

  // The number an instruction stores as an offset, factored.
  function Factored(i: Inst, daf: int): int {
    match i
    case Offset(_, u) => u * daf
    case OffsetSf(_, o) => o * daf
    case ValOffsetU(_, u) => u * daf
    case ValOffsetSf(_, o) => o * daf
    case DefCfa(_, u) => u
    case DefCfaSf(_, o) => o * daf
    case DefCfaOffset(u) => u
    case DefCfaOffsetSf(o) => o * daf
    case _ => 0
  }

  // The record the instruction leaves in its column, and no other, reads as the standard's new rule.
  lemma ColumnReads(t: Table, from: Table, i: Inst, daf: int)
    requires InTable(t, i) && |from.rules| == |t.rules| && Column(i).Some?
    requires Means(ReadTable(t), ReadTable(from), i, daf).Some?
    ensures var r, m := Column(i).value, Means(ReadTable(t), ReadTable(from), i, daf).value;
      && m == ReadTable(t).(cols := ReadTable(t).cols[r := m.cols[r]])
      && var x := if i.Restore? then from.rules[r] else NewRule(t.rules[r], i, daf);
         (ReadRule(x) == m.cols[r] <==> ReadableRule(t.rules[r], i, daf))
  {
    hide Word, Signed, FitsSigned;
    SignedWord(Factored(i, daf));
    if i.Register? {
      HalfIsIdentity(i.reg2);
    }
  }

  lemma CfaReads(t: Table, from: Table, i: Inst, daf: int)
    requires |from.rules| == |t.rules| && Column(i).None? && t.cfa.kind != ValExpression
    requires Means(ReadTable(t), ReadTable(from), i, daf).Some?
    ensures var m := Means(ReadTable(t), ReadTable(from), i, daf).value;
      && m.cols == ReadTable(t).cols
      && (ReadCfa(NewCfa(t.cfa, i, daf)) == m.cfa <==> ReadableCfa(i, daf))
  {
    hide Word, Signed, FitsSigned;
    SignedWord(Factored(i, daf));
    if i.DefCfa? || i.DefCfaSf? || i.DefCfaRegister? {
      HalfIsIdentity(i.creg);
    }
  }

  // Each rule instruction, where the standard allows it, is read back as what the standard says exactly
  // when it is readable.
  lemma EffectReads(t: Table, from: Table, i: Inst, daf: int)
    requires InTable(t, i) && |from.rules| == |t.rules| && t.cfa.kind != ValExpression
    requires Means(ReadTable(t), ReadTable(from), i, daf).Some?
    ensures ReadTable(Effect(t, from, i, daf)) == Means(ReadTable(t), ReadTable(from), i, daf).value <==> Readable(t, i, daf)
    ensures Effect(t, from, i, daf).cfa.kind != ValExpression
  {
    hide Means, Word, Signed, FitsSigned;
    if Column(i).Some? {
      var r, m := Column(i).value, Means(ReadTable(t), ReadTable(from), i, daf).value;
      var x := if i.Restore? then from.rules[r] else NewRule(t.rules[r], i, daf);
      ReadUpdate(t, r, x);
      ColumnReads(t, from, i, daf);
      ColumnsEqual(ReadTable(t), r, ReadRule(x), m.cols[r]);
    } else {
      CfaReads(t, from, i, daf);
      assert ReadTable(Effect(t, from, i, daf)).cols == ReadTable(t).cols;
    }
  }

  // The row machine on meanings.
  datatype MeanRow = MeanRow(m: Meanings, stack: seq<Meanings>)

  ghost predicate MeanSizes(row: MeanRow, init: Meanings) {
    |init.cols| == |row.m.cols| && forall k :: 0 <= k < |row.stack| ==> |row.stack[k].cols| == |init.cols|
  }

  function MeanStep(row: MeanRow, init: Meanings, i: Inst, daf: int): Option<MeanRow>
    requires |init.cols| == |row.m.cols|
  {
    match i
    case Bad => None
    case Remember => Some(row.(stack := [row.m] + row.stack))
    case RestoreState => if row.stack == [] then None else Some(MeanRow(row.stack[0], row.stack[1..]))
    case _ =>
      var m := Means(row.m, init, i, daf);
      if m.None? then None else Some(row.(m := m.value))
  }

  lemma MeanStepSizes(row: MeanRow, init: Meanings, i: Inst, daf: int)
    requires MeanSizes(row, init)
    ensures MeanStep(row, init, i, daf).Some? ==> MeanSizes(MeanStep(row, init, i, daf).value, init)
  {
  }

  ghost function MeanRun(row: MeanRow, init: Meanings, insts: seq<Inst>, daf: int): Option<MeanRow>
    requires MeanSizes(row, init)
    decreases |insts|
  {
    if insts == [] then Some(row)
    else
      MeanStepSizes(row, init, insts[0], daf);
      var r := MeanStep(row, init, insts[0], daf);
      if r.None? then None else MeanRun(r.value, init, insts[1..], daf)
  }

  // Every instruction of the run is readable where it stands.
  ghost predicate ReadableRun(row: Row, init: Table, insts: seq<Inst>, daf: int)
    requires SameSizes(row, init)
    decreases |insts|
  {
    insts == [] ||
    (RowStepSizes(row, init, insts[0], daf);
     (InTable(row.t, insts[0]) ==> Readable(row.t, insts[0], daf))
     && (RowStep(row, init, insts[0], daf).Some? ==>
           ReadableRun(RowStep(row, init, insts[0], daf).value, init, insts[1..], daf)))
  }

  ghost predicate Reads(row: Row, m: MeanRow) {
    && m.m == ReadTable(row.t) && |m.stack| == |row.stack| && row.t.cfa.kind != ValExpression
    && (forall k :: 0 <= k < |row.stack| ==> m.stack[k] == ReadTable(row.stack[k]) && row.stack[k].cfa.kind != ValExpression)
  }

  lemma StepReads(row: Row, m: MeanRow, init: Table, i: Inst, daf: int)
    requires SameSizes(row, init) && Reads(row, m) && (InTable(row.t, i) ==> Readable(row.t, i, daf))
    requires MeanStep(m, ReadTable(init), i, daf).Some?
    ensures RowStep(row, init, i, daf).Some?
    ensures Reads(RowStep(row, init, i, daf).value, MeanStep(m, ReadTable(init), i, daf).value)
  {
    if !(i.Remember? || i.RestoreState? || i.Bad?) {
      EffectReads(row.t, init, i, daf);
    }
  }

  // A readable program the standard allows gives records that read as the standard's rules.
  lemma {:induction false} RunReads(row: Row, m: MeanRow, init: Table, insts: seq<Inst>, daf: int)
    requires SameSizes(row, init) && MeanSizes(m, ReadTable(init)) && Reads(row, m)
    requires ReadableRun(row, init, insts, daf) && MeanRun(m, ReadTable(init), insts, daf).Some?
    ensures RowRun(row, init, insts, daf).Some?
    ensures Reads(RowRun(row, init, insts, daf).value, MeanRun(m, ReadTable(init), insts, daf).value)
    decreases |insts|
  {
    if insts != [] {
      RowStepSizes(row, init, insts[0], daf);
      MeanStepSizes(m, ReadTable(init), insts[0], daf);
      StepReads(row, m, init, insts[0], daf);
      RunReads(RowStep(row, init, insts[0], daf).value, MeanStep(m, ReadTable(init), insts[0], daf).value,
               init, insts[1..], daf);
    }
  }

  // ---------------- locations without wrapping

  function Spot(pc: nat, i: Inst, p: Params): nat {
    match i
    case Advance(d) => pc + d * p.caf
    case SetLoc(a) => a
    case _ => pc
  }

  // The instructions before the first that moves the location past pc_req.
  function Until(insts: seq<Inst>, pc: nat, p: Params): (r: seq<Inst>)
    ensures r <= insts
  {
    if insts == [] || (Moves(insts[0]) && p.req < Spot(pc, insts[0], p)) then []
    else [insts[0]] + Until(insts[1..], Spot(pc, insts[0], p), p)
  }

  // Every location reached, the one that ends the run included, has 64 bits.
  predicate FitsRun(insts: seq<Inst>, pc: nat, p: Params) {
    insts == [] ||
    (Spot(pc, insts[0], p) < 0x1_0000_0000_0000_0000
     && ((Moves(insts[0]) && p.req < Spot(pc, insts[0], p)) || FitsRun(insts[1..], Spot(pc, insts[0], p), p)))
  }

  function SpotAfter(pc: nat, insts: seq<Inst>, p: Params): nat
    decreases |insts|
  {
    if insts == [] then pc else SpotAfter(Spot(pc, insts[0], p), insts[1..], p)
  }

  // Then the interpreter's 64-bit locations are the plain sums, and it stops where the sum passes pc_req.
  lemma {:induction false} FitsMeansSums(insts: seq<Inst>, pc: nat, p: Params)
    requires pc < 0x1_0000_0000_0000_0000 && FitsRun(insts, pc, p)
    ensures Before(insts, pc, p) == Until(insts, pc, p)
    ensures LocationAfter(pc, Until(insts, pc, p), p) == SpotAfter(pc, Until(insts, pc, p), p)
    decreases |insts|
  {
    if insts != [] {
      assert Location(pc, insts[0], p) == Spot(pc, insts[0], p);
      if !(Moves(insts[0]) && p.req < Spot(pc, insts[0], p)) {
        FitsMeansSums(insts[1..], Spot(pc, insts[0], p), p);
      }
    }
  }

  // The row of the standard after the instructions before the first advance past pc_req.
  ghost function MeaningOf(m: Meanings, insts: seq<Inst>, pc: nat, p: Params): Option<MeanRow> {
    MeanRun(MeanRow(m, []), m, Until(insts, pc, p), p.daf)
  }

  ghost predicate ReadableFrom(t: Table, insts: seq<Inst>, pc: nat, p: Params) {
    FitsRun(insts, pc, p) && ReadableRun(Row(t, []), t, Until(insts, pc, p), p.daf)
  }

  // One run of the interpreter against the standard: a readable program the standard allows, whose
  // restores the shadow serves, ends without error, and its table reads as the standard's row.
  lemma RunRefines(t: Table, insts: seq<Inst>, pc: nat, p: Params)
    requires pc < TWO64 && t.cfa.kind != ValExpression && Served(t, insts, pc, p) && ReadableFrom(t, insts, pc, p)
    requires MeaningOf(ReadTable(t), insts, pc, p).Some?
    ensures var s := RunInst(t, insts, pc, p);
      && !Errored(s) && s.t.cfa.kind != ValExpression
      && ReadTable(s.t) == MeaningOf(ReadTable(t), insts, pc, p).value.m
  {
    RunIsRows(t, insts, pc, p);
    FitsMeansSums(insts, pc, p);
    RunReads(Row(t, []), MeanRow(ReadTable(t), []), t, Until(insts, pc, p), p.daf);
  }

  // The standard's answer for pc_req: every register as before the call and the CFA at register 0, then
  // all of the CIE, then from those rules the FDE up to pc_req.
  ghost function MeaningFor(f: Frame, n: nat, req: nat): Option<Meanings> {
    var start := Meanings(RegPlus(0, 0), seq(n, _ => IsSame));
    var c := MeanRun(MeanRow(start, []), start, f.cie, f.daf);
    if c.None? then None
    else if req < f.initloc then Some(c.value.m)
    else
      var r := MeaningOf(c.value.m, f.fde, f.initloc, Params(f.caf, f.daf, req));
      if r.None? then None else Some(r.value.m)
  }

  // No location is past the last address: the CIE is executed to its end.
  lemma {:induction false} UntilLast(insts: seq<Inst>, pc: nat, p: Params)
    requires FitsRun(insts, pc, p) && p.req == 0xffff_ffff_ffff_ffff
    ensures Until(insts, pc, p) == insts
  {
    if insts != [] {
      UntilLast(insts[1..], Spot(pc, insts[0], p), p);
      assert insts == [insts[0]] + insts[1..];
    }
  }

  ghost predicate TableReadable(f: Frame, n: nat, req: nat) {
    var c := RunInst(Initial(n), f.cie, 0, CieParams(f));
    && ReadableFrom(Initial(n), f.cie, 0, CieParams(f))
    && (req >= f.initloc ==> ReadableFrom(c.t, f.fde, f.initloc, FdeParams(f, req)))
  }

  // The table returned for pc_req reads as the standard's row, through CIE and FDE, with signed offsets and
  // locations that do not wrap.
  lemma TableRefines(f: Frame, n: nat, req: nat)
    requires f.initloc < TWO64 && TableServed(f, n, req) && TableReadable(f, n, req) && MeaningFor(f, n, req).Some?
    ensures !Errored(InternalTable(f, n, req))
    ensures ReadTable(InternalTable(f, n, req).t) == MeaningFor(f, n, req).value
  {
    assert ReadTable(Initial(n)) == Meanings(RegPlus(0, 0), seq(n, _ => IsSame));
    UntilLast(f.cie, 0, CieParams(f));
    RunRefines(Initial(n), f.cie, 0, CieParams(f));
    if req >= f.initloc {
      RunRefines(RunInst(Initial(n), f.cie, 0, CieParams(f)).t, f.fde, f.initloc, FdeParams(f, req));
    }
  }
}
