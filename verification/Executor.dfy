// The index-driven interpreter of if/then/else/fi, with its processes and pipes.
module Executor {
  import opened ShellSyntax
  import Validator
  import ValidatorExact

  // Whether a command can be exec'd, given the exec attempts made before it.
  type Oracle = (seq<string>, string) -> bool

  // ------------------------------------------------------- the meaning of a tree

  // Exec attempts so far, and how many of those made in evaluating b failed.
  // A condition holds when none made in evaluating it failed.
  function Eval(b: Body, can: Oracle, log: seq<string>): (r: (seq<string>, nat))
    ensures |r.0| > |log|
    decreases b
  {
    match b
    case Words(w, _) => (log + [w], if can(log, w) then 0 else 1)
    case Nested(s, _) =>
      var (l1, f1) := Eval(s.cond, can, log);
      var (l2, f2) := Eval(if f1 == 0 then s.yes else s.no, can, l1);
      (l2, f1 + f2)
  }

  // The usual meaning: a body is as good as the last command it runs.
  function Ordinary(b: Body, can: Oracle, log: seq<string>): (seq<string>, bool)
    decreases b
  {
    match b
    case Words(w, _) => (log + [w], can(log, w))
    case Nested(s, _) =>
      var (l1, ok) := Ordinary(s.cond, can, log);
      Ordinary(if ok then s.yes else s.no, can, l1)
  }

  // Failed attempts among log[from..].
  function Failed(can: Oracle, log: seq<string>, from: nat): nat
    decreases |log|
  {
    if |log| <= from then 0
    else Failed(can, log[..|log| - 1], from) + (if can(log[..|log| - 1], log[|log| - 1]) then 0 else 1)
  }

  lemma {:induction false} FailedSplit(can: Oracle, log: seq<string>, from: nat, mid: nat)
    requires from <= mid <= |log|
    ensures Failed(can, log, from) == Failed(can, log[..mid], from) + Failed(can, log, mid)
    decreases |log|
  {
    if mid < |log| {
      FailedSplit(can, log[..|log| - 1], from, mid);
      assert log[..|log| - 1][..mid] == log[..mid];
    } else {
      assert log[..mid] == log;
    }
  }

  // The evaluator only adds attempts, and its count is the count of failures
  // among those it added.
  lemma {:induction false} EvalCounts(b: Body, can: Oracle, log: seq<string>)
    ensures var (l, f) := Eval(b, can, log); |l| > |log| && l[..|log|] == log && f == Failed(can, l, |log|)
    decreases b
  {
    match b
    case Words(w, _) =>
      assert (log + [w])[..|log|] == log;
    case Nested(s, _) =>
      var (l1, f1) := Eval(s.cond, can, log);
      EvalCounts(s.cond, can, log);
      var b2 := if f1 == 0 then s.yes else s.no;
      EvalCounts(b2, can, l1);
      var (l2, f2) := Eval(b2, can, l1);
      FailedSplit(can, l2, |log|, |l1|);
      assert l2[..|log|] == l2[..|l1|][..|log|];
  }

  // The usual evaluation only adds attempts.
  lemma {:induction false} OrdinaryAdds(b: Body, can: Oracle, log: seq<string>)
    ensures var l := Ordinary(b, can, log).0; |l| > |log| && l[..|log|] == log
    decreases b
  {
    match b
    case Words(w, _) =>
      assert (log + [w])[..|log|] == log;
    case Nested(s, _) =>
      var (l1, ok) := Ordinary(s.cond, can, log);
      OrdinaryAdds(s.cond, can, log);
      var l2 := Ordinary(if ok then s.yes else s.no, can, l1).0;
      OrdinaryAdds(if ok then s.yes else s.no, can, l1);
      assert l2[..|log|] == l2[..|l1|][..|log|];
  }

  // When nothing fails there is no difference.
  lemma {:induction false} NothingFails(b: Body, can: Oracle, log: seq<string>)
    requires Eval(b, can, log).1 == 0
    ensures Ordinary(b, can, log) == (Eval(b, can, log).0, true)
    decreases b
  {
    match b
    case Words(_, _) =>
    case Nested(s, _) =>
      NothingFails(s.cond, can, log);
      NothingFails(s.yes, can, Eval(s.cond, can, log).0);
  }

  lemma {:induction false} LastDecides(b: Body, can: Oracle, log: seq<string>)
    ensures var (l, ok) := Ordinary(b, can, log); |l| > |log| && ok == can(l[..|l| - 1], l[|l| - 1])
    decreases b
  {
    match b
    case Words(w, _) =>
      assert (log + [w])[..|log|] == log;
    case Nested(s, _) =>
      var (l1, ok) := Ordinary(s.cond, can, log);
      LastDecides(s.cond, can, log);
      LastDecides(if ok then s.yes else s.no, can, l1);
  }

  // When none of the usual attempts fails, the shell makes them too.
  lemma {:induction false} AllSucceed(b: Body, can: Oracle, log: seq<string>)
    requires Failed(can, Ordinary(b, can, log).0, |log|) == 0
    ensures Eval(b, can, log) == (Ordinary(b, can, log).0, 0)
    decreases b
  {
    LastDecides(b, can, log);
    match b
    case Words(w, _) =>
      assert (log + [w])[..|log|] == log;
    case Nested(s, _) =>
      var (l1, ok) := Ordinary(s.cond, can, log);
      var l2 := Ordinary(if ok then s.yes else s.no, can, l1).0;
      OrdinaryAdds(s.cond, can, log);
      OrdinaryAdds(if ok then s.yes else s.no, can, l1);
      FailedSplit(can, l2, |log|, |l1|);
      AllSucceed(s.cond, can, log);
      LastDecides(s.cond, can, log);
      AllSucceed(s.yes, can, l1);
  }

  // A condition counts as true exactly when it is true in the usual sense and,
  // besides, none of its usual attempts before the last one failed.
  lemma {:induction false} CompoundCondition(b: Body, can: Oracle, log: seq<string>)
    ensures var (l, ok) := Ordinary(b, can, log);
            && |l| > |log| && l[..|log|] == log
            && (Eval(b, can, log).1 == 0 <==> ok && Failed(can, l[..|l| - 1], |log|) == 0)
  {
    OrdinaryAdds(b, can, log);
    LastDecides(b, can, log);
    if Failed(can, Ordinary(b, can, log).0, |log|) == 0 {
      AllSucceed(b, can, log);
    }
    if Eval(b, can, log).1 == 0 {
      NothingFails(b, can, log);
      EvalCounts(b, can, log);
    }
  }

  // A condition that is true in the usual sense, none of whose usual attempts
  // before the last failed, or one that is false in the usual sense.
  predicate Plainly(b: Body, can: Oracle, log: seq<string>) {
    var (l, ok) := Ordinary(b, can, log);
    ok ==> |l| > 0 && Failed(can, l[..|l| - 1], |log|) == 0
  }

  // So is every condition on the path the shell takes, and inside those.
  predicate Unspoilt(b: Body, can: Oracle, log: seq<string>)
    decreases b
  {
    match b
    case Words(_, _) => true
    case Nested(s, _) =>
      var (l1, f1) := Eval(s.cond, can, log);
      && Unspoilt(s.cond, can, log) && Plainly(s.cond, can, log)
      && Unspoilt(if f1 == 0 then s.yes else s.no, can, l1)
  }

  lemma PlainlyDecides(b: Body, can: Oracle, log: seq<string>)
    ensures Plainly(b, can, log) <==> (Eval(b, can, log).1 == 0 <==> Ordinary(b, can, log).1)
  {
    CompoundCondition(b, can, log);
  }

  // Then the shell makes the usual attempts.
  lemma {:induction false} UnspoiltIsOrdinary(b: Body, can: Oracle, log: seq<string>)
    requires Unspoilt(b, can, log)
    ensures Eval(b, can, log).0 == Ordinary(b, can, log).0
    decreases b
  {
    match b
    case Words(_, _) =>
    case Nested(s, _) =>
      var (l1, f1) := Eval(s.cond, can, log);
      UnspoiltIsOrdinary(s.cond, can, log);
      PlainlyDecides(s.cond, can, log);
      UnspoiltIsOrdinary(if f1 == 0 then s.yes else s.no, can, l1);
  }

  function First(b: Body): string
    decreases b
  {
    match b
    case Words(w, _) => w
    case Nested(s, _) => First(s.cond)
  }

  // Everywhere the then and the else part begin with different commands.
  predicate Forked(b: Body)
    decreases b
  {
    match b
    case Words(_, _) => true
    case Nested(s, _) => First(s.yes) != First(s.no) && Forked(s.cond) && Forked(s.yes) && Forked(s.no)
  }

  lemma {:induction false} FirstAttempt(b: Body, can: Oracle, log: seq<string>)
    ensures Eval(b, can, log).0[|log|] == First(b)
    ensures |Ordinary(b, can, log).0| > |log| && Ordinary(b, can, log).0[|log|] == First(b)
    decreases b
  {
    match b
    case Words(_, _) =>
    case Nested(s, _) =>
      var (l1, f1) := Eval(s.cond, can, log);
      var (m1, ok) := Ordinary(s.cond, can, log);
      FirstAttempt(s.cond, can, log);
      EvalCounts(if f1 == 0 then s.yes else s.no, can, l1);
      OrdinaryAdds(if ok then s.yes else s.no, can, m1);
      assert Eval(b, can, log).0[..|l1|] == l1;
      assert Ordinary(b, can, log).0[..|m1|] == m1;
  }

  // Two evaluations whose attempts agree as far as both go take the same path.
  lemma {:induction false} SameAttempts(b: Body, can: Oracle, log: seq<string>, all: seq<string>)
    requires Forked(b) && Eval(b, can, log).0 <= all && Ordinary(b, can, log).0 <= all
    ensures Unspoilt(b, can, log)
    decreases b
  {
    match b
    case Words(_, _) =>
    case Nested(s, _) =>
      var (l1, f1) := Eval(s.cond, can, log);
      var (m1, ok) := Ordinary(s.cond, can, log);
      EvalPrefix(s, can, log);
      SameAttempts(s.cond, can, log, all);
      UnspoiltIsOrdinary(s.cond, can, log);
      FirstAttempt(if f1 == 0 then s.yes else s.no, can, l1);
      FirstAttempt(if ok then s.yes else s.no, can, m1);
      assert all[|l1|] == First(if f1 == 0 then s.yes else s.no) == First(if ok then s.yes else s.no);
      PlainlyDecides(s.cond, can, log);
      SameAttempts(if f1 == 0 then s.yes else s.no, can, l1, all);
  }

  lemma EvalPrefix(s: Stmt, can: Oracle, log: seq<string>)
    ensures Eval(s.cond, can, log).0 <= Eval(Nested(s, []), can, log).0
    ensures Ordinary(s.cond, can, log).0 <= Ordinary(Nested(s, []), can, log).0
  {
    var (l1, f1) := Eval(s.cond, can, log);
    var (m1, ok) := Ordinary(s.cond, can, log);
    EvalCounts(if f1 == 0 then s.yes else s.no, can, l1);
    OrdinaryAdds(if ok then s.yes else s.no, can, m1);
  }

  // Where the two parts of every statement begin with different commands, the
  // shell makes the usual attempts exactly then.
  lemma OrdinaryAttemptsIff(b: Body, can: Oracle, log: seq<string>)
    requires Forked(b)
    ensures Eval(b, can, log).0 == Ordinary(b, can, log).0 <==> Unspoilt(b, can, log)
  {
    if Unspoilt(b, can, log) {
      UnspoiltIsOrdinary(b, can, log);
    }
    if Eval(b, can, log).0 == Ordinary(b, can, log).0 {
      SameAttempts(b, can, log, Eval(b, can, log).0);
    }
  }

  predicate PlainConditions(b: Body)
    decreases b
  {
    match b
    case Words(_, _) => true
    case Nested(s, _) => s.cond.Words? && PlainConditions(s.yes) && PlainConditions(s.no)
  }

  // With single commands for conditions the shell behaves as usual: the then
  // part is run exactly when the condition could be exec'd.
  lemma {:induction false} PlainConditionsOrdinary(b: Body, can: Oracle, log: seq<string>)
    requires PlainConditions(b)
    ensures Unspoilt(b, can, log) && Eval(b, can, log).0 == Ordinary(b, can, log).0
    decreases b
  {
    match b
    case Words(_, _) =>
    case Nested(s, _) =>
      var (l1, f1) := Eval(s.cond, can, log);
      assert l1[..|l1| - 1] == log;
      PlainConditionsOrdinary(if f1 == 0 then s.yes else s.no, can, l1);
      UnspoiltIsOrdinary(b, can, log);
  }

  // if if A then B else C fi then D else E fi, where only A fails: C succeeds, so
  // the condition does, but the shell runs E.
  lemma TaintedCondition(a: string, b: string, c: string, d: string, e: string, can: Oracle)
    requires !can([], a) && can([a], c)
    ensures var cond := Nested(IfStmt(Words(a, []), Words(b, []), Words(c, [])), []);
            var t := Nested(IfStmt(cond, Words(d, []), Words(e, [])), []);
            Eval(t, can, []).0 == [a, c, e] && Ordinary(t, can, []).0 == [a, c, d]
  {
    var t := Nested(IfStmt(Words(a, []), Words(b, []), Words(c, [])), []);
    assert [] + [a] == [a] && [a] + [c] == [a, c];
    assert Eval(Words(a, []), can, []) == ([a], 1) && Eval(Words(c, []), can, [a]) == ([a, c], 0);
    assert Eval(t, can, []) == ([a, c], 1);
    assert Ordinary(t, can, []) == ([a, c], true);
  }

  // --------------------------------------------------- finding a statement's marks

  // Positions of "then", "else" and "fi", scanning from i with cnt inner
  // statements open; -1 for one that is not found.
  function Marks(toks: seq<Token>, i: nat, cnt: nat, th: int, el: int): (int, int, int)
    requires i <= |toks|
    decreases |toks| - i
  {
    if i == |toks| then (th, el, -1)
    else match toks[i]
      case Else => Marks(toks, i + 1, cnt, th, if cnt == 0 then i else el)
      case Fi => if cnt == 0 then (th, el, i) else Marks(toks, i + 1, cnt - 1, th, el)
      case Then => Marks(toks, i + 1, cnt, if cnt == 0 then i else th, el)
      case If => Marks(toks, i + 1, cnt + 1, th, el)
      case Plain(_) => Marks(toks, i + 1, cnt, th, el)
  }

  method FindMarks(toks: seq<Token>, start: nat) returns (th: int, el: int, fi: int)
    requires start < |toks|
    ensures (th, el, fi) == Marks(toks, start + 1, 0, -1, -1)
  {
    th, el, fi := -1, -1, -1;
    var cnt := 0;
    var i := start + 1;
    while i < |toks|
      invariant start < i <= |toks| && cnt >= 0 && fi == -1
      invariant Marks(toks, i, cnt, th, el) == Marks(toks, start + 1, 0, -1, -1)
    {
      if toks[i] == Else && cnt == 0 {
        el := i;
      } else if toks[i] == Fi {
        if cnt == 0 {
          fi := i;
          break;
        } else {
          cnt := cnt - 1;
        }
      } else if toks[i] == Then && cnt == 0 {
        th := i;
      } else if toks[i] == If {
        cnt := cnt + 1;
      }
      i := i + 1;
    }
  }

  predicate At(toks: seq<Token>, i: nat, part: seq<Token>) {
    i + |part| <= |toks| && forall k {:trigger part[k]} :: 0 <= k < |part| ==> toks[i + k] == part[k]
  }

  lemma AtSplit(toks: seq<Token>, i: nat, a: seq<Token>, b: seq<Token>)
    ensures At(toks, i, a + b) <==> At(toks, i, a) && At(toks, i + |a|, b)
  {
    if At(toks, i, a + b) {
      forall k | 0 <= k < |a| ensures toks[i + k] == a[k] { assert (a + b)[k] == a[k]; }
      forall k | 0 <= k < |b| ensures toks[i + |a| + k] == b[k] { assert (a + b)[|a| + k] == b[k]; }
    }
  }

  lemma AtOne(toks: seq<Token>, i: nat, t: Token)
    ensures At(toks, i, [t]) <==> i < |toks| && toks[i] == t
  {
    assert [t][0] == t;
  }

  // Where the parts of a statement lie.
  lemma Parts(toks: seq<Token>, i: nat, s: Stmt) returns (th: nat, el: nat, fi: nat)
    requires At(toks, i, FlatStmt(s))
    ensures th == i + 1 + |FlatBody(s.cond)| && el == th + 1 + |FlatBody(s.yes)| && fi == el + 1 + |FlatBody(s.no)|
    ensures i + |FlatStmt(s)| == fi + 1 <= |toks|
    ensures toks[i] == If && toks[th] == Then && toks[el] == Else && toks[fi] == Fi
    ensures At(toks, i + 1, FlatBody(s.cond)) && At(toks, th + 1, FlatBody(s.yes)) && At(toks, el + 1, FlatBody(s.no))
  {
    var p1 := [If]; var p2 := p1 + FlatBody(s.cond); var p3 := p2 + [Then];
    var p4 := p3 + FlatBody(s.yes); var p5 := p4 + [Else]; var p6 := p5 + FlatBody(s.no);
    th, el, fi := i + |p2|, i + |p4|, i + |p6|;
    AtSplit(toks, i, p6, [Fi]); AtSplit(toks, i, p5, FlatBody(s.no)); AtSplit(toks, i, p4, [Else]);
    AtSplit(toks, i, p3, FlatBody(s.yes)); AtSplit(toks, i, p2, [Then]); AtSplit(toks, i, p1, FlatBody(s.cond));
    AtOne(toks, i, If); AtOne(toks, th, Then); AtOne(toks, el, Else); AtOne(toks, fi, Fi);
  }

  // The scan passes over a whole body, up to j, without noticing what is inside.
  lemma {:induction false} MarksPassBody(toks: seq<Token>, i: nat, j: nat, cnt: nat, th: int, el: int, b: Body)
    requires At(toks, i, FlatBody(b)) && j == i + |FlatBody(b)|
    ensures Marks(toks, i, cnt, th, el) == Marks(toks, j, cnt, th, el)
    decreases b
  {
    match b
    case Words(w, rest) =>
      AtSplit(toks, i, [Plain(w)], Plains(rest));
      AtOne(toks, i, Plain(w));
      MarksPassWords(toks, i + 1, j, cnt, th, el, rest);
    case Nested(s, rest) =>
      var k := i + |FlatStmt(s)|;
      AtSplit(toks, i, FlatStmt(s), Plains(rest));
      MarksPassStmt(toks, i, k, cnt, th, el, s);
      MarksPassWords(toks, k, j, cnt, th, el, rest);
  }

  lemma {:induction false} MarksPassWords(toks: seq<Token>, i: nat, j: nat, cnt: nat, th: int, el: int, ws: seq<string>)
    requires At(toks, i, Plains(ws)) && j == i + |ws|
    ensures Marks(toks, i, cnt, th, el) == Marks(toks, j, cnt, th, el)
    decreases |ws|
  {
    if ws != [] {
      AtSplit(toks, i, [Plain(ws[0])], Plains(ws[1..]));
      AtOne(toks, i, Plain(ws[0]));
      MarksPassWords(toks, i + 1, j, cnt, th, el, ws[1..]);
    }
  }

  lemma {:induction false} MarksPassStmt(toks: seq<Token>, i: nat, j: nat, cnt: nat, th: int, el: int, s: Stmt)
    requires At(toks, i, FlatStmt(s)) && j == i + |FlatStmt(s)|
    ensures Marks(toks, i, cnt, th, el) == Marks(toks, j, cnt, th, el)
    decreases s
  {
    var t, e, f := Parts(toks, i, s);
    MarksPassBody(toks, i + 1, t, cnt + 1, th, el, s.cond);
    MarksPassBody(toks, t + 1, e, cnt + 1, th, el, s.yes);
    MarksPassBody(toks, e + 1, f, cnt + 1, th, el, s.no);
    ChainInner(toks, i, t, e, f, cnt, th, el);
  }

  lemma ChainInner(toks: seq<Token>, i: nat, t: nat, e: nat, f: nat, cnt: nat, th: int, el: int)
    requires i < t < e < f < |toks| && toks[i] == If && toks[t] == Then && toks[e] == Else && toks[f] == Fi
    requires Marks(toks, i + 1, cnt + 1, th, el) == Marks(toks, t, cnt + 1, th, el)
    requires Marks(toks, t + 1, cnt + 1, th, el) == Marks(toks, e, cnt + 1, th, el)
    requires Marks(toks, e + 1, cnt + 1, th, el) == Marks(toks, f, cnt + 1, th, el)
    ensures Marks(toks, i, cnt, th, el) == Marks(toks, f + 1, cnt, th, el)
  {
  }

  // For a statement anywhere in the token list, whatever surrounds it, the scan
  // finds its own keywords and never those of a statement inside it.
  lemma {:induction false} MarksOwn(toks: seq<Token>, start: nat, s: Stmt) returns (th: nat, el: nat, fi: nat)
    requires At(toks, start, FlatStmt(s))
    ensures th == start + 1 + |FlatBody(s.cond)| && el == th + 1 + |FlatBody(s.yes)|
    ensures fi == el + 1 + |FlatBody(s.no)| < |toks|
    ensures At(toks, start + 1, FlatBody(s.cond)) && At(toks, th + 1, FlatBody(s.yes))
    ensures At(toks, el + 1, FlatBody(s.no))
    ensures Marks(toks, start + 1, 0, -1, -1) == (th, el, fi)
  {
    th, el, fi := Parts(toks, start, s);
    MarksPassBody(toks, start + 1, th, 0, -1, -1, s.cond);
    MarksPassBody(toks, th + 1, el, 0, th, -1, s.yes);
    MarksPassBody(toks, el + 1, fi, 0, th, el, s.no);
    ChainOwn(toks, start + 1, th, el, fi);
  }

  lemma ChainOwn(toks: seq<Token>, i: nat, t: nat, e: nat, f: nat)
    requires i <= t < e < f < |toks| && toks[t] == Then && toks[e] == Else && toks[f] == Fi
    requires Marks(toks, i, 0, -1, -1) == Marks(toks, t, 0, -1, -1)
    requires Marks(toks, t + 1, 0, t, -1) == Marks(toks, e, 0, t, -1)
    requires Marks(toks, e + 1, 0, t, e) == Marks(toks, f, 0, t, e)
    ensures Marks(toks, i, 0, -1, -1) == (t, e, f)
  {
  }

  // ----------------------------------------------------------------- the machine

  // What is written to the pipe of each condition evaluated, in the order in which
  // the conditions are decided: three bytes for each attempt that fails in it.
  function PipesOf(b: Body, can: Oracle, log: seq<string>): seq<nat>
    decreases b
  {
    match b
    case Words(_, _) => []
    case Nested(s, _) =>
      var (l1, f1) := Eval(s.cond, can, log);
      PipesOf(s.cond, can, log) + ([3 * Failed(can, l1, |log|)] + PipesOf(if f1 == 0 then s.yes else s.no, can, l1))
  }

  // `attempts` lists the exec attempts of all processes in order, `pipes` the
  // number of bytes written to the pipe of each condition.
  class Shell {
    const can: Oracle
    var attempts: seq<string>
    var pipes: seq<nat>

    constructor (can: Oracle)
      ensures this.can == can && attempts == [] && pipes == []
    {
      this.can, attempts, pipes := can, [], [];
    }

    // execute_single: a process whose exec fails comes back from the call.
    method ExecuteSingle(word: string) returns (back: nat)
      modifies this
      ensures attempts == old(attempts) + [word] && pipes == old(pipes)
      ensures back == if can(old(attempts), word) then 0 else 1
    {
      back := if can(attempts, word) then 0 else 1;
      attempts := attempts + [word];
    }

    // execute, at the start of a body.  `back` counts the processes that come
    // back from the call: a process forked inside it that does not come to exec
    // a command returns through the frames it inherited.
    method Execute(toks: seq<Token>, start: nat, ghost b: Body) returns (back: nat)
      requires At(toks, start, FlatBody(b))
      modifies this
      ensures attempts == Eval(b, can, old(attempts)).0
      ensures back == Eval(b, can, old(attempts)).1
      ensures pipes == old(pipes) + PipesOf(b, can, old(attempts))
      decreases b
    {
      StartOf(toks, start, b);
      if toks[start] == If {
        back := ExecuteIf(toks, start, b.stmt);
      } else {
        back := ExecuteSingle(toks[start].word);
        assert old(pipes) + [] == old(pipes);
      }
    }

    // The if/then/else arm of execute
    method ExecuteIf(toks: seq<Token>, start: nat, ghost s: Stmt) returns (back: nat)
      requires At(toks, start, FlatStmt(s))
      modifies this
      ensures attempts == Eval(Nested(s, []), can, old(attempts)).0
      ensures back == Eval(Nested(s, []), can, old(attempts)).1
      ensures pipes == old(pipes) + PipesOf(Nested(s, []), can, old(attempts))
      decreases s
    {
      ghost var t, e, f := MarksOwn(toks, start, s);
      var th, el, fi := FindMarks(toks, start);
      // the child evaluates the condition, holding the write end of a new pipe;
      // each process that comes back to it writes "Fai" and returns as well
      var fromChild := Execute(toks, start + 1, s.cond);
      EvalCounts(s.cond, can, old(attempts));
      var piped, j := 0, 0;
      while j < fromChild
        invariant 0 <= j <= fromChild && piped == 3 * j
      {
        piped := piped + 3;
        j := j + 1;
      }
      pipes := pipes + [piped];
      // the parent waits for the child and looks whether anything was written
      ghost var branch, l1 := if piped > 0 then s.no else s.yes, attempts;
      var fromBranch;
      if piped > 0 {
        fromBranch := Execute(toks, el + 1, s.no);
      } else {
        fromBranch := Execute(toks, th + 1, s.yes);
      }
      back := fromChild + fromBranch;
      Joined(old(pipes), PipesOf(s.cond, can, old(attempts)), [piped], PipesOf(branch, can, l1));
    }

    // A line the recogniser lets through is run from its first token.
    method RunLine(toks: seq<Token>) returns (valid: bool)
      requires 0 < |toks| <= 1000 && toks[0] == If
      modifies this
      ensures valid == Validator.Accepts(toks)
      ensures !valid ==> attempts == old(attempts)
      ensures valid ==> exists s: Stmt, rest: seq<Token> ::
                toks == FlatStmt(s) + rest && attempts == Eval(Nested(s, []), can, old(attempts)).0
    {
      valid := Validator.Validate(toks);
      if valid {
        ghost var s, rest := ValidatorExact.Begin(toks);
        assert Plains([]) == [];
        assert FlatBody(Nested(s, [])) == FlatStmt(s);
        AtSplit(toks, 0, FlatStmt(s), rest);
        var back := Execute(toks, 0, Nested(s, []));
      }
    }
  }

  lemma Joined(p: seq<nat>, a: seq<nat>, b: seq<nat>, c: seq<nat>)
    ensures ((p + a) + b) + c == p + (a + (b + c))
  {
  }

  lemma StartOf(toks: seq<Token>, start: nat, b: Body)
    requires At(toks, start, FlatBody(b))
    ensures start < |toks|
    ensures b.Words? ==> toks[start] == Plain(b.first)
    ensures b.Nested? ==> toks[start] == If && At(toks, start, FlatStmt(b.stmt))
  {
    match b
    case Words(w, rest) =>
      AtSplit(toks, start, [Plain(w)], Plains(rest));
      AtOne(toks, start, Plain(w));
    case Nested(s, rest) =>
      AtSplit(toks, start, FlatStmt(s), Plains(rest));
      var th, el, fi := Parts(toks, start, s);
  }
}
