/**
 The generator as the program runs it: instructions appended to the output, two counters
 that only grow, and numbers written into the declarations. Proved against the functions of
 LlvmCode.
 */
module LlvmGenerator {
  import opened Base
  import opened Monga
  import opened LlvmCode

  // What comes after code that has been written already.
  function After(code: seq<Instr>, r: Option<CmdCode>): Option<CmdCode> {
    if r.None? then None else Some(r.value.(code := code + r.value.code))
  }

  lemma Joined3(out: seq<Instr>, a: seq<Instr>, b: seq<Instr>, c: seq<Instr>)
    ensures out + a + b + c == out + (a + b + c)
  {
  }

  lemma Joined4(out: seq<Instr>, a: seq<Instr>, b: seq<Instr>, c: seq<Instr>, d: seq<Instr>)
    ensures out + a + b + c + d == out + (a + b + c + d)
  {
  }

  lemma Joined5(out: seq<Instr>, a: seq<Instr>, b: seq<Instr>, c: seq<Instr>, d: seq<Instr>, e: seq<Instr>)
    ensures out + a + b + c + d + e == out + (a + b + c + d + e)
  {
  }

  class Generator {
    var output: seq<Instr>
    var curTempVar: nat
    var curTempLabel: nat
    var varNumber: map<nat, Slot>
    var paramNumber: map<nat, nat>

    constructor ()
      ensures output == [] && Counts() == Counters(0, 0) && Env() == Numbers(map[], map[])
    {
      output, curTempVar, curTempLabel, varNumber, paramNumber := [], 0, 0, map[], map[];
    }

    function Counts(): Counters
      reads this
    {
      Counters(curTempVar, curTempLabel)
    }

    function Env(): Numbers
      reads this
    {
      Numbers(varNumber, paramNumber)
    }

    method NextTempVar() returns (t: nat)
      modifies `curTempVar
      ensures t == curTempVar == old(curTempVar) + 1
    {
      curTempVar := curTempVar + 1;
      t := curTempVar;
    }

    method NextTempLabel() returns (l: nat)
      modifies `curTempLabel
      ensures l == curTempLabel == old(curTempLabel) + 1
    {
      curTempLabel := curTempLabel + 1;
      l := curTempLabel;
    }

    method Write(i: Instr)
      modifies `output
      ensures output == old(output) + [i]
    {
      output := output + [i];
    }

    method WriteLabel(l: nat)
      modifies `output
      ensures output == old(output) + LabelCode(l)
    {
      Write(Br(l));
      Write(Label(l));
    }

    method WriteExp(e: Exp) returns (ret: nat)
      modifies `output, `curTempVar
      ensures
        var r := GenExp(e, old(curTempVar), Env());
        output == old(output) + r.code && ret == r.result && curTempVar == r.temp
      decreases e
    {
      match e {
        case Int(n) =>
          ret := NextTempVar();
          Write(AddZero(ret, n));
        case Var(d) =>
          ret := NextTempVar();
          Write(Load(ret, SlotOf(Env(), d)));
        case Param(p) =>
          ret := NextTempVar();
          ret := ParamOf(Env(), p);
        case Minus(e1) =>
          var t := WriteExp(e1);
          ret := NextTempVar();
          Write(MulMinusOne(ret, t));
        case Arith(op, e1, e2) =>
          var r1 := WriteExp(e1);
          var r2 := WriteExp(e2);
          ret := NextTempVar();
          Write(Binary(ret, op, r1, r2));
      }
    }

    // False is exit(-1).
    method WriteCond(c: Cond, lt: nat, lf: nat) returns (ok: bool)
      modifies `output, `curTempVar, `curTempLabel
      ensures ok <==> GenCond(c, lt, lf, old(Counts()), Env()).Some?
      ensures ok ==>
                var g := GenCond(c, lt, lf, old(Counts()), Env()).value;
                output == old(output) + g.code && Counts() == g.k
      decreases c
    {
      hide GenExp, LabelCode;
      ok := true;
      match c {
        case Or(c1, c2) =>
          ghost var was := output;
          var nl := NextTempLabel();
          ghost var g1 := GenCond(c1, lt, nl, Counts(), Env());
          ok := WriteCond(c1, lt, nl);
          if ok {
            WriteLabel(nl);
            ghost var g2 := GenCond(c2, lt, lf, Counts(), Env());
            ok := WriteCond(c2, lt, lf);
            if ok {
              Joined3(was, g1.value.code, LabelCode(nl), g2.value.code);
            }
          }
        case Not(c1) => ok := WriteCond(c1, lf, lt);
        case And(c1, c2) =>
          ghost var was := output;
          var nl := NextTempLabel();
          ghost var g1 := GenCond(c1, nl, lf, Counts(), Env());
          ok := WriteCond(c1, nl, lf);
          if ok {
            WriteLabel(nl);
            ghost var g2 := GenCond(c2, lt, lf, Counts(), Env());
            ok := WriteCond(c2, lt, lf);
            if ok {
              Joined3(was, g1.value.code, LabelCode(nl), g2.value.code);
            }
          }
        case Compare(op, e1, e2) =>
          var r1 := WriteExp(e1);
          var r2 := WriteExp(e2);
          var t := NextTempVar();
          Write(Icmp(t, op, r1, r2));
          Write(CondBr(t, lt, lf));
        case Literal(n) =>
          var result := WriteExp(Int(n));
          var ret := NextTempVar();
          Write(IcmpZero(ret, result));
          Write(CondBr(ret, lf, lt));
        case Value(_) => ok := false;
      }
    }

    method WriteVars(vars: seq<nat>)
      modifies `output, `curTempVar, `varNumber
      ensures
        var r := GenVars(vars, old(curTempVar), old(Env()));
        output == old(output) + r.code && curTempVar == old(curTempVar) + |vars| && Env() == r.env
    {
      ghost var all := GenVars(vars, curTempVar, Env());
      for i := 0 to |vars|
        invariant curTempVar == old(curTempVar) + i
        invariant
          var rest := GenVars(vars[i..], curTempVar, Env());
          old(output) + all.code == output + rest.code && all.env == rest.env
      {
        assert vars[i..][0] == vars[i] && vars[i..][1..] == vars[i + 1..];
        ghost var rest := GenVars(vars[i + 1..], curTempVar + 1,
                                  Numbers(varNumber[vars[i] := Local(curTempVar + 1)], paramNumber));
        assert output + ([Alloca(curTempVar + 1)] + rest.code) == output + [Alloca(curTempVar + 1)] + rest.code;
        var t := NextTempVar();
        varNumber := varNumber[vars[i] := Local(t)];
        Write(Alloca(t));
      }
    }

    method WriteCmd(c: Cmd) returns (ok: bool)
      modifies this
      ensures paramNumber == old(paramNumber)
      ensures ok <==> GenCmd(c, old(Counts()), old(Env())).Some?
      ensures ok ==>
                var g := GenCmd(c, old(Counts()), old(Env())).value;
                output == old(output) + g.code && Counts() == g.k && Env() == g.env
      decreases c, 1
    {
      hide GenExp, LabelCode, GenCond, GenVars, GenCmds;
      ok := true;
      match c {
        case While(_, _) => ok := WriteWhile(c);
        case If(cond, body) =>
          ghost var was, env := output, Env();
          var lf := NextTempLabel();
          var lt := NextTempLabel();
          ghost var g := GenCond(cond, lt, lf, Counts(), env);
          ok := WriteCond(cond, lt, lf);
          if ok {
            WriteLabel(lt);
            ghost var b := GenCmd(body, Counts(), env);
            ok := WriteCmd(body);
            WriteLabel(lf);
            if ok {
              Joined4(was, g.value.code, LabelCode(lt), b.value.code, LabelCode(lf));
            }
          }
        case IfElse(_, _, _) => ok := WriteIfElse(c);
        case Assign(d, e) =>
          var r := WriteExp(e);
          Write(StoreTo(SlotOf(Env(), d), r));
        case Return(e) =>
          var r := WriteExp(e);
          Write(Ret(r));
        case Block(vars, cmds) =>
          WriteVars(vars);
          ok := WriteCmds(cmds);
      }
    }

    method WriteWhile(c: Cmd) returns (ok: bool)
      requires c.While?
      modifies this
      ensures paramNumber == old(paramNumber)
      ensures ok <==> GenCmd(c, old(Counts()), old(Env())).Some?
      ensures ok ==>
                var g := GenCmd(c, old(Counts()), old(Env())).value;
                output == old(output) + g.code && Counts() == g.k && Env() == g.env
      decreases c, 0
    {
      hide GenExp, LabelCode, GenCond, GenVars, GenCmds;
      ghost var was, k, env := output, Counts(), Env();
      var lWhile := NextTempLabel();
      var lBreak := NextTempLabel();
      ghost var g1 := GenCond(c.c, lWhile, lBreak, Counts(), env);
      ok := WriteCond(c.c, lWhile, lBreak);
      if ok {
        WriteLabel(lWhile);
        ghost var b := GenCmd(c.body, Counts(), env);
        ok := WriteCmd(c.body);
        if ok {
          ghost var g2 := GenCond(c.c, lWhile, lBreak, Counts(), Env());
          ok := WriteCond(c.c, lWhile, lBreak);
          WriteLabel(lBreak);
          if ok {
            Joined5(was, g1.value.code, LabelCode(lWhile), b.value.code, g2.value.code, LabelCode(lBreak));
          }
        }
      }
    }

    method WriteIfElse(c: Cmd) returns (ok: bool)
      requires c.IfElse?
      modifies this
      ensures paramNumber == old(paramNumber)
      ensures ok <==> GenCmd(c, old(Counts()), old(Env())).Some?
      ensures ok ==>
                var g := GenCmd(c, old(Counts()), old(Env())).value;
                output == old(output) + g.code && Counts() == g.k && Env() == g.env
      decreases c, 0
    {
      hide GenExp, LabelCode, GenCond, GenVars, GenCmds;
      ghost var was, env := output, Env();
      var lt := NextTempLabel();
      var lf := NextTempLabel();
      var lAfterElse := NextTempLabel();
      ghost var g := GenCond(c.c, lt, lf, Counts(), env);
      ok := WriteCond(c.c, lt, lf);
      if ok {
        WriteLabel(lt);
        ghost var b1 := GenCmd(c.c1, Counts(), env);
        ok := WriteCmd(c.c1);
        if ok {
          Write(Br(lAfterElse));
          WriteLabel(lf);
          ghost var first := g.value.code + LabelCode(lt) + b1.value.code + [Br(lAfterElse)] + LabelCode(lf);
          assert output == was + first by {
            Joined5(was, g.value.code, LabelCode(lt), b1.value.code, [Br(lAfterElse)], LabelCode(lf));
          }
          ghost var b2 := GenCmd(c.c2, Counts(), Env());
          ok := WriteCmd(c.c2);
          WriteLabel(lAfterElse);
          if ok {
            Joined3(was, first, b2.value.code, LabelCode(lAfterElse));
          }
        }
      }
    }

    method WriteCmds(list: Cmds) returns (ok: bool)
      modifies this
      ensures paramNumber == old(paramNumber)
      ensures ok <==> GenCmds(list, old(Counts()), old(Env())).Some?
      ensures ok ==>
                var g := GenCmds(list, old(Counts()), old(Env())).value;
                output == old(output) + g.code && Counts() == g.k && Env() == g.env
      decreases list
    {
      hide GenCmd;
      var current := list;
      ghost var all := After(output, GenCmds(list, Counts(), Env()));
      ok := true;
      while current.Then?
        invariant current == list || current < list
        invariant paramNumber == old(paramNumber)
        invariant After(output, GenCmds(current, Counts(), Env())) == all
        decreases current
      {
        ghost var written := output;
        ghost var g1 := GenCmd(current.first, Counts(), Env());
        ok := WriteCmd(current.first);
        if !ok {
          return;
        }
        ghost var g2 := GenCmds(current.rest, Counts(), Env());
        if g2.Some? {
          assert written + (g1.value.code + g2.value.code) == output + g2.value.code;
        }
        current := current.rest;
      }
    }

    // Numbers for the parameters, then the body.
    method WriteFunc(args: nat, body: Cmd) returns (ok: bool)
      modifies this
      ensures ok <==> GenFunc(args, body, old(Counts()), old(Env())).Some?
      ensures ok ==>
                var g := GenFunc(args, body, old(Counts()), old(Env())).value;
                output == old(output) + g.code && Counts() == g.k && Env() == g.env
    {
      ghost var k, env := Counts(), Env();
      paramNumber := map[];
      for p := 0 to args
        invariant curTempVar == k.temps + p && curTempLabel == k.labels
        invariant output == old(output) && varNumber == env.vars
        invariant paramNumber == ParamNumbers(p, k.temps)
      {
        var t := NextTempVar();
        paramNumber := paramNumber[p := t];
      }
      ok := WriteCmd(body);
    }
  }
}
