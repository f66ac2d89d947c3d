// The stack recogniser of the shell.
module Validator {
  import opened ShellSyntax
  import opened Options

  predicate Opens(t: Token) { t == If || t == Then || t == Else }

  // ------------------------------------------------------------ the recogniser

  // Popping for one "fi": at most three symbols, in the order ELSE, THEN, IF,
  // `prev` being the last one popped.  Popping stops without complaint when the
  // stack runs out.
  function Pops(stk: seq<Token>, prev: Token, j: nat): Option<(seq<Token>, Token)>
    decreases |stk|
  {
    if j >= 3 || stk == [] then Some((stk, prev))
    else
      var top := stk[|stk| - 1];
      if top == Else && prev == Fi then Pops(stk[..|stk| - 1], Else, j + 1)
      else if top == Then && prev == Else then Pops(stk[..|stk| - 1], Then, j + 1)
      else if top == If && prev == Then then Pops(stk[..|stk| - 1], Fi, j + 1)
      else None
  }

  datatype Scan = Reject | Going(stk: seq<Token>, prev: Token, last: Option<Token>)

  predicate AfterOpening(last: Option<Token>) { last.Some? && Opens(last.value) }

  function Feed(s: Scan, t: Token): Scan {
    match s
    case Reject => Reject
    case Going(stk, prev, last) =>
      match t
      case If => if last.None? || AfterOpening(last) then Going(stk + [If], prev, Some(t)) else Reject
      case Then => if AfterOpening(last) then Reject else Going(stk + [Then], prev, Some(t))
      case Else => if AfterOpening(last) then Reject else Going(stk + [Else], prev, Some(t))
      case Fi =>
        if AfterOpening(last) then Reject
        else (match Pops(stk, prev, 0) case None => Reject case Some(p) => Going(p.0, p.1, Some(t)))
      case Plain(_) => Going(stk, prev, Some(t))
  }

  function RunScan(s: Scan, ts: seq<Token>): Scan
    decreases |ts|
  {
    if ts == [] then s else RunScan(Feed(s, ts[0]), ts[1..])
  }

  const START := Going([], Fi, None)

  predicate Accepts(ts: seq<Token>) {
    RunScan(START, ts).Going? && RunScan(START, ts).stk == []
  }

  // The popping loop for one "fi"
  method PopThree(stk: array<Token>, top0: int, prev0: Token) returns (top: int, prev: Token, ok: bool)
    requires -1 <= top0 < stk.Length
    ensures -1 <= top <= top0
    ensures Pops(stk[..top0 + 1], prev0, 0) == if ok then Some((stk[..top + 1], prev)) else None
  {
    top, prev, ok := top0, prev0, true;
    var j := 1;
    while top >= 0 && j <= 3
      invariant 1 <= j <= 4 && -1 <= top <= top0
      invariant Pops(stk[..top + 1], prev, j - 1) == Pops(stk[..top0 + 1], prev0, 0)
    {
      assert stk[..top + 1][..top] == stk[..top];
      if stk[top] == Else && prev == Fi {
        prev := Else;
      } else if stk[top] == Then && prev == Else {
        prev := Then;
      } else if stk[top] == If && prev == Then {
        prev := Fi;
      } else {
        return top, prev, false;
      }
      top := top - 1;
      j := j + 1;
    }
  }

  // validateIfElseCondition.  The stack has room for 1000 symbols, and the text
  // looks at the token before a "then", "else" or "fi".
  method Validate(tokens: seq<Token>) returns (valid: bool)
    requires |tokens| <= 1000
    requires tokens != [] ==> tokens[0] == If || tokens[0].Plain?
    ensures valid == Accepts(tokens)
  {
    var stk := new Token[1000](_ => Fi);
    var top, prev := -1, Fi;
    var i := 0;
    while i < |tokens|
      invariant 0 <= i <= |tokens| && -1 <= top < i
      invariant RunScan(START, tokens) ==
                RunScan(Going(stk[..top + 1], prev, if i == 0 then None else Some(tokens[i - 1])), tokens[i..])
    {
      var t := tokens[i];
      assert tokens[i..] == [t] + tokens[i + 1..];
      ghost var before := stk[..top + 1];
      if t == If {
        if !(i == 0 || Opens(tokens[i - 1])) {
          RejectStays(tokens[i + 1..]);
          return false;
        }
        top := top + 1;
        stk[top] := If;
        assert stk[..top + 1] == before + [If];
      } else if t == Then || t == Else {
        if Opens(tokens[i - 1]) {
          RejectStays(tokens[i + 1..]);
          return false;
        }
        top := top + 1;
        stk[top] := t;
        assert stk[..top + 1] == before + [t];
      } else if t == Fi {
        if Opens(tokens[i - 1]) {
          RejectStays(tokens[i + 1..]);
          return false;
        }
        var ok;
        top, prev, ok := PopThree(stk, top, prev);
        if !ok {
          RejectStays(tokens[i + 1..]);
          return false;
        }
      }
      i := i + 1;
    }
    return top < 0;
  }

  lemma RejectStays(ts: seq<Token>)
    ensures RunScan(Reject, ts) == Reject
  {
  }

  lemma {:induction false} RunAppend(s: Scan, a: seq<Token>, b: seq<Token>)
    ensures RunScan(s, a + b) == RunScan(RunScan(s, a), b)
    decreases |a|
  {
    if a == [] {
      assert a + b == b;
    } else {
      assert (a + b)[1..] == a[1..] + b;
      RunAppend(Feed(s, a[0]), a[1..], b);
    }
  }

  lemma RunSnoc(s: Scan, a: seq<Token>, t: Token)
    ensures RunScan(s, a + [t]) == Feed(RunScan(s, a), t)
  {
    RunAppend(s, a, [t]);
    assert RunScan(RunScan(s, a), [t]) == RunScan(Feed(RunScan(s, a), t), []);
  }

  // --------------------------------------------- every derivable line is accepted

  lemma {:induction false} RunPlains(ws: seq<string>, stk: seq<Token>, last: Option<Token>)
    requires !AfterOpening(last)
    ensures var r := RunScan(Going(stk, Fi, last), Plains(ws));
            r.Going? && r.stk == stk && r.prev == Fi && !AfterOpening(r.last)
    decreases |ws|
  {
    if ws != [] { RunPlains(ws[1..], stk, Some(Plain(ws[0]))); }
  }

  lemma {:induction false} RunBody(b: Body, stk: seq<Token>, last: Option<Token>)
    requires AfterOpening(last)
    ensures var r := RunScan(Going(stk, Fi, last), FlatBody(b));
            r.Going? && r.stk == stk && r.prev == Fi && !AfterOpening(r.last)
    decreases b
  {
    match b
    case Words(first, rest) =>
      RunPlains(rest, stk, Some(Plain(first)));
    case Nested(stmt, rest) =>
      RunStmt(stmt, stk, last);
      RunAppend(Going(stk, Fi, last), FlatStmt(stmt), Plains(rest));
      RunPlains(rest, stk, Some(Fi));
  }

  lemma {:induction false} RunStmt(s: Stmt, stk: seq<Token>, last: Option<Token>)
    requires last.None? || AfterOpening(last)
    ensures RunScan(Going(stk, Fi, last), FlatStmt(s)) == Going(stk, Fi, Some(Fi))
    decreases s
  {
    var s0 := Going(stk, Fi, last);
    var p1 := [If]; var p2 := p1 + FlatBody(s.cond); var p3 := p2 + [Then];
    var p4 := p3 + FlatBody(s.yes); var p5 := p4 + [Else]; var p6 := p5 + FlatBody(s.no);
    RunSnoc(s0, [], If); assert [] + [If] == p1;
    RunAppend(s0, p1, FlatBody(s.cond)); RunBody(s.cond, stk + [If], Some(If));
    RunSnoc(s0, p2, Then);
    RunAppend(s0, p3, FlatBody(s.yes)); RunBody(s.yes, stk + [If] + [Then], Some(Then));
    RunSnoc(s0, p4, Else);
    RunAppend(s0, p5, FlatBody(s.no)); RunBody(s.no, stk + [If] + [Then] + [Else], Some(Else));
    RunSnoc(s0, p6, Fi);
    PopsThree(stk);
  }

  lemma PopsThree(stk: seq<Token>)
    ensures Pops(stk + [If] + [Then] + [Else], Fi, 0) == Some((stk, Fi))
  {
    var s1 := stk + [If]; var s2 := s1 + [Then]; var s3 := s2 + [Else];
    assert s3[..|s3| - 1] == s2 && s2[..|s2| - 1] == s1 && s1[..|s1| - 1] == stk;
    assert Pops(s1, Then, 2) == Pops(stk, Fi, 3);
    assert Pops(s2, Else, 1) == Pops(s1, Then, 2);
  }

  lemma DerivableIsAccepted(ts: seq<Token>)
    requires Derivable(ts)
    ensures Accepts(ts)
  {
    var s: Stmt, ws: seq<string> :| ts == FlatStmt(s) + Plains(ws);
    RunStmt(s, [], None);
    RunAppend(START, FlatStmt(s), Plains(ws));
    RunPlains(ws, [], Some(Fi));
  }

  // ---------------------------------- nothing after the statement that opened it

  function Delta(t: Token): int { if t == If then 1 else if t == Fi then -1 else 0 }

  // How many statements are open after ts, starting with d open; -1 once a
  // keyword has been met with none open.
  function Depth(d: int, ts: seq<Token>): int
    decreases |ts|
  {
    if ts == [] then d
    else if ts[0].Plain? then Depth(d, ts[1..])
    else if d <= 0 then -1
    else Depth(d + Delta(ts[0]), ts[1..])
  }

  // No keyword follows the "fi" that brings the count of open ifs back to zero.
  predicate StopsAtClose(ts: seq<Token>) {
    ts != [] && ts[0] == If && Depth(1, ts[1..]) >= 0
  }

  lemma {:induction false} DepthAppend(d: int, a: seq<Token>, b: seq<Token>)
    requires Depth(d, a) >= 0
    ensures Depth(d, a + b) == Depth(Depth(d, a), b)
    decreases |a|
  {
    if a == [] {
      assert a + b == b;
    } else {
      assert (a + b)[1..] == a[1..] + b;
      if a[0].Plain? { DepthAppend(d, a[1..], b); }
      else { DepthAppend(d + Delta(a[0]), a[1..], b); }
    }
  }

  lemma {:induction false} DepthPlains(d: int, ws: seq<string>)
    ensures Depth(d, Plains(ws)) == d
    decreases |ws|
  {
    if ws != [] { DepthPlains(d, ws[1..]); }
  }

  lemma {:induction false} DepthBody(d: int, b: Body)
    requires d >= 1
    ensures Depth(d, FlatBody(b)) == d
    decreases b, 0
  {
    match b
    case Words(first, rest) =>
      DepthPlains(d, rest);
    case Nested(stmt, rest) =>
      DepthStmt(d, stmt);
      DepthAppend(d, FlatStmt(stmt), Plains(rest));
      DepthPlains(d, rest);
  }

  // The tokens of a statement after its "if".
  function Inside(s: Stmt): seq<Token> {
    FlatBody(s.cond) + [Then] + FlatBody(s.yes) + [Else] + FlatBody(s.no) + [Fi]
  }

  lemma {:induction false} DepthStmt(d: int, s: Stmt)
    requires d >= 0
    ensures FlatStmt(s) == [If] + Inside(s) && Depth(d + 1, Inside(s)) == d
    ensures d >= 1 ==> Depth(d, FlatStmt(s)) == d
    decreases s
  {
    var p3 := FlatBody(s.cond) + [Then]; var p5 := p3 + FlatBody(s.yes) + [Else];
    DepthPart(d, [], s.cond, Then);
    assert [] + FlatBody(s.cond) == FlatBody(s.cond);
    DepthPart(d, p3, s.yes, Else);
    DepthBody(d + 1, s.no);
    DepthAppend(d + 1, p5, FlatBody(s.no));
    DepthAppend(d + 1, p5 + FlatBody(s.no), [Fi]);
    InsideIs(s);
  }

  // A body and the "then" or "else" after it, inside d + 1 statements
  lemma {:induction false} DepthPart(d: int, before: seq<Token>, b: Body, kw: Token)
    requires d >= 0 && (kw == Then || kw == Else) && Depth(d + 1, before) == d + 1
    ensures Depth(d + 1, before + FlatBody(b) + [kw]) == d + 1
    decreases b, 1
  {
    DepthBody(d + 1, b);
    DepthAppend(d + 1, before, FlatBody(b));
    DepthAppend(d + 1, before + FlatBody(b), [kw]);
    assert [kw][1..] == [];
  }

  lemma InsideIs(s: Stmt)
    ensures FlatStmt(s) == [If] + Inside(s)
  {
    assert [If] + FlatBody(s.cond) + [Then] + FlatBody(s.yes) + [Else] + FlatBody(s.no) + [Fi] == [If] + Inside(s);
  }

  lemma DerivableStops(ts: seq<Token>)
    requires Derivable(ts)
    ensures StopsAtClose(ts)
  {
    var s: Stmt, ws: seq<string> :| ts == FlatStmt(s) + Plains(ws);
    DepthStmt(0, s);
    DepthAppend(1, Inside(s), Plains(ws));
    DepthPlains(0, ws);
    assert ts[1..] == Inside(s) + Plains(ws);
  }
}
