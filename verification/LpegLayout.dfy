/** Generated code is a sequence of whole instructions. */
module LpegLayout {
  import opened LpegTree
  import opened LpegAnalysis
  import opened LpegVm
  import opened LpegCode
  import opened LpegCorrect
  import opened LpegCalls

  predicate WholeInstr(code: seq<Instr>) {
    && code != [] && !code[0].Ext? && SizeI(code[0]) <= |code|
    && forall x :: 1 <= x < SizeI(code[0]) ==> code[x] == Ext
  }

  /** `code` can be read instruction by instruction, each with all its cells. */
  predicate Laid(code: seq<Instr>)
    decreases |code|
  {
    code == [] || (WholeInstr(code) && Laid(code[SizeI(code[0])..]))
  }

  lemma LaidCons(a: seq<Instr>, b: seq<Instr>)
    requires WholeInstr(a) && Laid(a[SizeI(a[0])..] + b)
    ensures Laid(a + b)
  {
    hide SizeI;
    var n := SizeI(a[0]);
    assert (a + b)[0] == a[0];
    assert (a + b)[n..] == a[n..] + b;
    assert WholeInstr(a + b);
  }

  lemma {:induction false} LaidConcat(a: seq<Instr>, b: seq<Instr>)
    requires Laid(a) && Laid(b)
    ensures Laid(a + b)
    decreases |a|
  {
    if a == [] {
      assert a + b == b;
    } else {
      LaidConcat(a[SizeI(a[0])..], b);
      LaidCons(a, b);
    }
  }

  lemma LaidOne(code: seq<Instr>)
    requires WholeInstr(code) && SizeI(code[0]) == |code|
    ensures Laid(code)
  {
    assert code[|code|..] == [];
  }

  lemma LaidTest(cs: Charset, e: bool, offset: int)
    ensures Laid(TestCode(cs, e, offset))
  {
    if !e {
      LaidOne(TestCode(cs, e, offset));
    }
  }

  lemma LaidCharset(cs: Charset, tt: Test)
    ensures Laid(CodeCharset(cs, tt))
    ensures Laid([ISpan(cs)] + Exts(CHARSETINSTSIZE - 1))
  {
    LaidOne(CodeCharset(cs, tt));
    LaidOne([ISpan(cs)] + Exts(CHARSETINSTSIZE - 1));
  }

  lemma LaidChoice(cs: Charset, e: bool, c1: seq<Instr>, c2: seq<Instr>, jump: bool)
    requires Laid(c1) && Laid(c2)
    ensures Laid(ChoiceByTest(cs, c1, c2, jump))
    ensures Laid(ChoiceByStack(cs, e, c1, c2))
  {
    hide TestCode, Laid;
    var j := if jump then [IJmp(2 + |c2|), Ext] else [];
    LaidEmpty();
    LaidOne([IJmp(2 + |c2|), Ext]);
    var test := TestCode(cs, false, TestLen(cs, false) + |c1| + |j|);
    LaidTest(cs, false, TestLen(cs, false) + |c1| + |j|);
    LaidConcat(j, c2);
    LaidConcat(c1, j + c2);
    LaidConcat(test, c1 + (j + c2));
    var test1 := TestCode(cs, e, TestLen(cs, e) + 4 + |c1|);
    LaidTest(cs, e, TestLen(cs, e) + 4 + |c1|);
    LaidOne([ICommit(2 + |c2|), Ext]);
    LaidOne([IChoice(4 + |c1|), Ext]);
    LaidConcat([ICommit(2 + |c2|), Ext], c2);
    LaidConcat(c1, [ICommit(2 + |c2|), Ext] + c2);
    LaidConcat([IChoice(4 + |c1|), Ext], c1 + ([ICommit(2 + |c2|), Ext] + c2));
    LaidConcat(test1, [IChoice(4 + |c1|), Ext] + (c1 + ([ICommit(2 + |c2|), Ext] + c2)));
  }

  lemma LaidEmpty()
    ensures Laid([])
  {
  }

  lemma LaidLoop(cs: Charset, e: bool, opt: bool, c: seq<Instr>)
    requires Laid(c)
    ensures Laid(RepByTest(cs, c))
    ensures Laid(RepByStack(cs, e, opt, c))
  {
    hide TestCode, Laid;
    var jmp := [IJmp(-(TestLen(cs, false) + |c|)), Ext];
    LaidOne(jmp);
    LaidConcat(c, jmp);
    LaidTest(cs, false, TestLen(cs, false) + |c| + 2);
    LaidConcat(TestCode(cs, false, TestLen(cs, false) + |c| + 2), c + jmp);
    var choice := [if opt then IPartialCommit(2) else IChoice(4 + |c|), Ext];
    var commit := [IPartialCommit(-|c|), Ext];
    LaidOne(choice);
    LaidOne(commit);
    LaidConcat(c, commit);
    LaidConcat(choice, c + commit);
    LaidTest(cs, e, TestLen(cs, e) + 4 + |c|);
    LaidConcat(TestCode(cs, e, TestLen(cs, e) + 4 + |c|), choice + (c + commit));
  }

  lemma LaidNot(cs: Charset, e: bool, c: seq<Instr>)
    requires Laid(c)
    ensures Laid(NotByTest(cs, e))
    ensures Laid(NotByStack(cs, e, c))
  {
    hide TestCode, Laid;
    LaidOne([IFail]);
    LaidTest(cs, e, TestLen(cs, e) + 1);
    LaidConcat(TestCode(cs, e, TestLen(cs, e) + 1), [IFail]);
    LaidOne([IFailTwice]);
    LaidOne([IChoice(3 + |c|), Ext]);
    LaidConcat(c, [IFailTwice]);
    LaidConcat([IChoice(3 + |c|), Ext], c + [IFailTwice]);
    LaidTest(cs, e, TestLen(cs, e) + 3 + |c|);
    LaidConcat(TestCode(cs, e, TestLen(cs, e) + 3 + |c|), [IChoice(3 + |c|), Ext] + (c + [IFailTwice]));
  }

  lemma LaidAnd(c: seq<Instr>)
    requires Laid(c)
    ensures Laid(AndByStack(c))
  {
    hide Laid;
    assert [IBackCommit(3), Ext] + [IFail] == [IBackCommit(3), Ext, IFail];
    LaidOne([IFail]);
    LaidOne([IBackCommit(3), Ext]);
    LaidConcat([IBackCommit(3), Ext], [IFail]);
    LaidConcat(c, [IBackCommit(3), Ext, IFail]);
    LaidOne([IChoice(4 + |c|), Ext]);
    LaidConcat([IChoice(4 + |c|), Ext], c + [IBackCommit(3), Ext, IFail]);
  }

  lemma LaidBehind(n: nat)
    ensures Laid(BehindCode(n))
  {
    if n > 0 {
      LaidOne([IBehind(n)]);
    }
  }

  lemma LaidGrammar(rules: seq<Instr>)
    requires Laid(rules)
    ensures Laid(GrammarCode(rules))
  {
    hide Laid;
    var call := [ICall(4), Ext];
    var jmp := [IJmp(2 + |rules|), Ext];
    LaidOne(call);
    LaidOne(jmp);
    LaidConcat(jmp, rules);
    LaidConcat(call, jmp + rules);
    assert call + (jmp + rules) == GrammarCode(rules);
  }

  /** Replacing instructions by instructions of the same size keeps the layout. */
  lemma {:induction false} LaidSameSizes(a: seq<Instr>, b: seq<Instr>)
    requires Laid(a) && |a| == |b|
    requires forall x :: 0 <= x < |a| ==> SizeI(a[x]) == SizeI(b[x]) && (a[x].Ext? <==> b[x].Ext?)
    ensures Laid(b)
    decreases |a|
  {
    if a != [] {
      var n := SizeI(a[0]);
      LaidSameSizes(a[n..], b[n..]);
    }
  }

  lemma LaidCorrectCalls(code: seq<Instr>, positions: seq<nat>)
    requires Laid(code)
    ensures Laid(CorrectCalls(code, positions, 0))
  {
    var out := CorrectCalls(code, positions, 0);
    CorrectCallsResolves(code, positions, 0);
    forall x | 0 <= x < |code|
      ensures SizeI(code[x]) == SizeI(out[x]) && (code[x].Ext? <==> out[x].Ext?)
    {
      assert Resolved(code[x], out, x, positions);
    }
    LaidSameSizes(code, out);
  }

  lemma {:induction false} GenLaid(g: seq<Tree>, t: Tree, opt: bool, tt: Test, fl: Charset, d: nat)
    ensures Laid(Gen(g, t, opt, tt, fl, d))
    decreases t, 1
  {
    hide First, Headfail, FixedLen, HasCaptures, TestOf, NeedFollow, CodeCharset, Laid, ChoiceByTest, ChoiceByStack,
      RepByTest, RepByStack, NotByTest, NotByStack, AndByStack, BehindCode, GrammarCode, Exts, CorrectCalls;
    match t
    case TChar(c) => LaidOne(CodeChar(c, tt));
    case TAny => LaidOne([IAny]);
    case TSet(cs) => LaidCharset(cs, tt);
    case TTrue => LaidEmpty();
    case TFalse => LaidOne([IFail]);
    case TCall(k) => LaidOne([IOpenCall(k), Ext]);
    case TChoice(p1, p2) => GenLaidChoice(g, p1, p2, opt, tt, fl, d);
    case TRep(p) =>
      var f := First(g, p, FULL, d);
      if ToCharset(p).Some? {
        LaidCharset(ToCharset(p).value, tt);
      } else if Headfail(g, p, d) || (!f.e && f.cs !! fl) {
        GenLaid(g, p, false, TestOf(f.cs, false), FULL, d);
        LaidLoop(f.cs, f.e, opt, Gen(g, p, false, TestOf(f.cs, false), FULL, d));
      } else {
        GenLaid(g, p, false, NoTest, FULL, d);
        LaidLoop(f.cs, f.e, opt, Gen(g, p, false, NoTest, FULL, d));
      }
    case TBehind(p, n) =>
      GenLaid(g, p, false, NoTest, FULL, d);
      LaidBehind(n);
      LaidConcat(BehindCode(n), Gen(g, p, false, NoTest, FULL, d));
    case TNot(p) =>
      var f := First(g, p, FULL, d);
      GenLaid(g, p, false, NoTest, FULL, d);
      LaidNot(f.cs, f.e, Gen(g, p, false, NoTest, FULL, d));
    case TAnd(p) =>
      var c := Gen(g, p, false, tt, FULL, d);
      var n := FixedLen(g, p, d);
      GenLaid(g, p, false, tt, FULL, d);
      LaidAnd(c);
      if n >= 0 {
        LaidBehind(n);
        LaidConcat(c, BehindCode(n));
      }
    case TCapture(kind, key, p) =>
      var c := Gen(g, p, false, tt, fl, d);
      var n := FixedLen(g, p, d);
      GenLaid(g, p, false, tt, fl, d);
      if 0 <= n <= MAXOFF && !HasCaptures(g, p, {}, d) {
        LaidOne([IFullCapture(kind, key, n)]);
        LaidConcat(c, [IFullCapture(kind, key, n)]);
      } else {
        LaidOne([IOpenCapture(kind, key)]);
        LaidOne([ICloseCapture]);
        LaidConcat(c, [ICloseCapture]);
        LaidConcat([IOpenCapture(kind, key)], c + [ICloseCapture]);
      }
    case TGrammar(rules) =>
      var r := GenRules(rules, rules, 0, d);
      GenRulesLaid(rules, rules, 0, d);
      LaidCorrectCalls(r.code, r.positions);
      LaidGrammar(CorrectCalls(r.code, r.positions, 0));
    case TSeq(p1, p2) =>
      var fl1 := if NeedFollow(p1) then First(g, p2, fl, d).cs else FULL;
      var tt2 := if FixedLen(g, p1, d) != 0 then NoTest else tt;
      GenLaid(g, p1, false, tt, fl1, d);
      GenLaid(g, p2, opt, tt2, fl, d);
      LaidConcat(Gen(g, p1, false, tt, fl1, d), Gen(g, p2, opt, tt2, fl, d));
  }

  lemma {:induction false} GenLaidChoice(g: seq<Tree>, p1: Tree, p2: Tree, opt: bool, tt: Test, fl: Charset, d: nat)
    ensures Laid(Gen(g, TChoice(p1, p2), opt, tt, fl, d))
    decreases TChoice(p1, p2), 0
  {
    hide First, Headfail, TestOf, Laid, ChoiceByTest, ChoiceByStack;
    var f1 := First(g, p1, FULL, d);
    var c2 := Gen(g, p2, opt, NoTest, fl, d);
    GenLaid(g, p2, opt, NoTest, fl, d);
    if Headfail(g, p1, d) || (!f1.e && f1.cs !! First(g, p2, fl, d).cs) {
      GenLaid(g, p1, false, TestOf(f1.cs, false), fl, d);
      LaidChoice(f1.cs, f1.e, Gen(g, p1, false, TestOf(f1.cs, false), fl, d), c2, !p2.TTrue?);
    } else if opt && p2.TTrue? {
      GenLaid(g, p1, true, NoTest, FULL, d);
      LaidOne([IPartialCommit(2), Ext]);
      LaidConcat([IPartialCommit(2), Ext], Gen(g, p1, true, NoTest, FULL, d));
    } else {
      GenLaid(g, p1, p2.TTrue?, TestOf(f1.cs, f1.e), FULL, d);
      LaidChoice(f1.cs, f1.e, Gen(g, p1, p2.TTrue?, TestOf(f1.cs, f1.e), FULL, d), c2, false);
    }
  }

  lemma {:induction false} GenRulesLaid(g: seq<Tree>, rules: seq<Tree>, start: nat, d: nat)
    ensures Laid(GenRules(g, rules, start, d).code)
    decreases rules, 0
  {
    hide Gen, Laid;
    LaidEmpty();
    if rules != [] {
      var c := Gen(g, rules[0], false, NoTest, FULL, d);
      GenLaid(g, rules[0], false, NoTest, FULL, d);
      LaidOne([IRet]);
      LaidConcat(c, [IRet]);
      GenRulesLaid(g, rules[1..], start + |c + [IRet]|, d);
      LaidConcat(c + [IRet], GenRules(g, rules[1..], start + |c + [IRet]|, d).code);
    }
  }
}
