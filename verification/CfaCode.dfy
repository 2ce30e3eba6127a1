// kern/libdwarf_frame.c as code: the global rule table and its one shadow, overwritten in place by the
// instruction loop.
module CfaCode {
  import opened Cfa
  import opened Wrappers

  class FrameReader {
    const rules: array<Rule>               // global_rules, behind rt
    var cfaRule: Rule
    const shadow: array<Rule>              // global_rules_shadow, behind init_rt and saved_rt
    var shadowCfa: Rule

    ghost predicate Valid()
      reads this, rules, shadow
    {
      rules.Length == shadow.Length && rules != shadow
    }

    ghost function T(): Table
      reads this, rules
    {
      Table(cfaRule, rules[..])
    }

    ghost function Shadow(): Table
      reads this, shadow
    {
      Table(shadowCfa, shadow[..])
    }

    // _dwarf_frame_regtable_copy towards the shadow, for init_rt and for saved_rt alike.
    method CopyToShadow()
      requires Valid()
      modifies `shadowCfa, shadow
      ensures Shadow() == T()
    {
      shadowCfa := cfaRule;
      var i := 0;
      while i < shadow.Length && i < rules.Length
        invariant 0 <= i <= rules.Length
        invariant shadowCfa == cfaRule && shadow[..i] == rules[..i]
      {
        shadow[i] := rules[i];
        i := i + 1;
      }
      assert shadow[..] == rules[..];
    }

    // And from it, for restore_state.
    method CopyFromShadow()
      requires Valid()
      modifies `cfaRule, rules
      ensures T() == Shadow()
    {
      cfaRule := shadowCfa;
      var i := 0;
      while i < rules.Length && i < shadow.Length
        invariant 0 <= i <= rules.Length
        invariant cfaRule == shadowCfa && rules[..i] == shadow[..i]
      {
        rules[i] := shadow[i];
        i := i + 1;
      }
      assert rules[..] == shadow[..];
    }

    // The rule assignments of one instruction whose register was checked.
    method Apply(i: Inst, daf: int)
      requires Valid() && InTable(T(), i)
      modifies `cfaRule, rules
      ensures T() == Effect(old(T()), Shadow(), i, daf)
    {
      match i {
        case Restore(r) => rules[r] := shadow[r];
        case Offset(r, _) => rules[r] := NewRule(rules[r], i, daf);
        case OffsetSf(r, _) => rules[r] := NewRule(rules[r], i, daf);
        case ValOffsetU(r, _) => rules[r] := NewRule(rules[r], i, daf);
        case ValOffsetSf(r, _) => rules[r] := NewRule(rules[r], i, daf);
        case Undefined(r) => rules[r] := NewRule(rules[r], i, daf);
        case SameValue(r) => rules[r] := NewRule(rules[r], i, daf);
        case Register(r, _) => rules[r] := NewRule(rules[r], i, daf);
        case Expression(r, _, _) => rules[r] := NewRule(rules[r], i, daf);
        case ValExpressionInst(r, _, _) => rules[r] := NewRule(rules[r], i, daf);
        case _ => cfaRule := NewCfa(cfaRule, i, daf);
      }
    }

    // CHECK_TABLE_SIZE, then the assignments.
    method CheckAndApply(i: Inst, daf: int) returns (status: Status)
      requires Valid()
      modifies `cfaRule, rules
      ensures status == if InTable(old(T()), i) then Going else RegTooHigh
      ensures T() == if InTable(old(T()), i) then Effect(old(T()), Shadow(), i, daf) else old(T())
    {
      match Column(i) {
        case None =>
        case Some(r) =>
          if r >= rules.Length {
            return RegTooHigh;
          }
      }
      Apply(i, daf);
      status := Going;
    }

    // One turn of the opcode loop.
    method Execute(i: Inst, p: Params, saved: bool, pc: nat, rowPc: nat)
      returns (saved': bool, pc': nat, rowPc': nat, status: Status)
      requires Valid()
      modifies this, rules, shadow
      ensures State(T(), Shadow(), saved', pc', rowPc', status)
        == Step(State(old(T()), old(Shadow()), saved, pc, rowPc, Going), i, p)
    {
      hide Effect, Column;
      saved', pc', rowPc', status := saved, pc, rowPc, Going;
      match i {
        case Nop =>
        case Bad => status := ExecError;
        case Advance(d) =>
          pc' := Word(pc + d * p.caf);
          if p.req < pc' { status := Stopped; }
        case SetLoc(a) =>
          pc' := Word(a);
          if p.req < pc' { status := Stopped; }
        case Remember =>
          CopyToShadow();
          saved' := true;
        case RestoreState =>
          rowPc' := pc;
          if saved { CopyFromShadow(); } else { status := AssertFailed; }
        case _ =>
          if !i.SameValue? { rowPc' := pc; }
          status := CheckAndApply(i, p.daf);
      }
    }

    method RunInst(insts: seq<Inst>, start: nat, p: Params) returns (status: Status, pc: nat, rowPc: nat)
      requires Valid()
      modifies this, rules, shadow
      ensures var s := Cfa.RunInst(old(T()), insts, start, p);
        status == s.status && pc == s.pc && rowPc == s.rowPc && T() == s.t
    {
      hide RunFrom, Step;
      ghost var goal := Cfa.RunInst(T(), insts, start, p);
      pc, rowPc, status := start, start, Going;
      var saved := false;
      CopyToShadow();
      var k := 0;
      assert insts[0..] == insts;
      while k < |insts| && status == Going
        invariant 0 <= k <= |insts|
        invariant RunFrom(State(T(), Shadow(), saved, pc, rowPc, status), insts[k..], p) == goal
      {
        ghost var rest := insts[k..];
        UnrollCode(State(T(), Shadow(), saved, pc, rowPc, status), rest, p);
        saved, pc, rowPc, status := Execute(insts[k], p, saved, pc, rowPc);
        k := k + 1;
        assert insts[k..] == rest[1..];
      }
      RunEnds(State(T(), Shadow(), saved, pc, rowPc, status), insts[k..], p);
    }

    method GetInternalTable(f: Frame, pcReq: nat) returns (status: Status, rowPc: nat)
      requires Valid()
      modifies this, rules, shadow
      ensures Valid()
      ensures var s := InternalTable(f, rules.Length, pcReq); status == s.status && rowPc == s.rowPc && T() == s.t
    {
      cfaRule := Blank();
      var i := 0;
      while i < rules.Length
        invariant Valid() && 0 <= i <= rules.Length && cfaRule == Blank()
        invariant rules[..i] == Initial(rules.Length).rules[..i]
      {
        rules[i] := Blank().(regnum := SAME_VAL);
        i := i + 1;
      }
      assert T() == Initial(rules.Length);
      var pc: nat;
      status, pc, rowPc := RunInst(f.cie, 0, Params(f.caf, f.daf, LAST));
      if status != Going && status != Stopped {
        return;
      }
      if pcReq >= f.initloc {
        status, pc, rowPc := RunInst(f.fde, f.initloc, Params(f.caf, f.daf, pcReq));
      }
    }
  }

  lemma RunEnds(s: State, insts: seq<Inst>, p: Params)
    requires Wf(s) && (insts == [] || s.status != Going)
    ensures RunFrom(s, insts, p) == s
  {
  }
}
