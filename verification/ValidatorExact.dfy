// What the recogniser accepts, against the grammar.
//
// While statements are open, the recogniser's stack is the keyword column of a
// partial parse: the pending keywords, each with the body read after it so far.
module ValidatorExact {
  import opened ShellSyntax
  import opened Validator
  import opened Options

  // Pending keywords, the innermost on the outside; a body is None until it has begun, and
  // stays None while the nested statement it begins with is being read.
  datatype Zip = Empty | Pending(below: Zip, kw: Token, body: Option<Body>)

  function Kws(z: Zip): seq<Token> {
    match z
    case Empty => []
    case Pending(below, kw, _) => Kws(below) + [kw]
  }

  function BodyTokens(b: Option<Body>): seq<Token> {
    if b.None? then [] else FlatBody(b.value)
  }

  // The tokens read so far.
  function Read(z: Zip): seq<Token> {
    match z
    case Empty => []
    case Pending(below, kw, body) => Read(below) + [kw] + BodyTokens(body)
  }

  function Ifs(z: Zip): nat {
    match z
    case Empty => 0
    case Pending(below, kw, _) => Ifs(below) + (if kw == If then 1 else 0)
  }

  // The bottom keyword is "if"; a keyword other than "if" follows a body.
  predicate ZipOk(z: Zip) {
    && z.Pending? && Opens(z.kw)
    && (z.below.Empty? ==> z.kw == If)
    && (z.below.Pending? ==> ZipOk(z.below) && (z.below.body.None? <==> z.kw == If))
  }

  ghost predicate Sim(z: Zip, s: Scan) {
    && ZipOk(z) && s.Going? && s.stk == Kws(z) && s.prev == Fi && s.last.Some?
    && (AfterOpening(s.last) <==> z.body.None?)
  }

  lemma {:induction false} IfsPositive(z: Zip)
    requires ZipOk(z)
    ensures Ifs(z) >= 1
    decreases z
  {
    if z.below.Pending? { IfsPositive(z.below); }
  }

  function AddWord(b: Option<Body>, w: string): Body {
    match b
    case None => Words(w, [])
    case Some(Words(f, r)) => Words(f, r + [w])
    case Some(Nested(s, r)) => Nested(s, r + [w])
  }

  lemma {:induction false} PlainsSnoc(ws: seq<string>, w: string)
    ensures Plains(ws + [w]) == Plains(ws) + [Plain(w)]
    decreases |ws|
  {
  }

  lemma AddWordTokens(b: Option<Body>, w: string)
    ensures BodyTokens(Some(AddWord(b, w))) == BodyTokens(b) + [Plain(w)]
  {
    if b.Some? { PlainsSnoc(b.value.rest, w); } else { assert Plains([]) == []; }
  }

  // -------------------------------------------------------------- one token each

  lemma StepPlain(z: Zip, s: Scan, w: string) returns (z': Zip)
    requires Sim(z, s)
    ensures Sim(z', Feed(s, Plain(w))) && Ifs(z') == Ifs(z) && Read(z') == Read(z) + [Plain(w)]
  {
    z' := z.(body := Some(AddWord(z.body, w)));
    AddWordTokens(z.body, w);
  }

  lemma StepOpen(z: Zip, s: Scan, t: Token) returns (z': Zip)
    requires Sim(z, s) && Opens(t) && Feed(s, t) != Reject
    ensures Sim(z', Feed(s, t)) && Ifs(z') == Ifs(z) + Delta(t) && Read(z') == Read(z) + [t]
  {
    z' := Pending(z, t, None);
  }

  // A "fi" that is not rejected closes the three innermost keywords, which are
  // "if", "then" and "else" in that order.
  lemma FiPopsThree(z: Zip, s: Scan)
    requires Sim(z, s) && Feed(s, Fi) != Reject
    ensures z.kw == Else && z.below.Pending? && z.below.kw == Then && z.below.below.Pending? && z.below.below.kw == If
    ensures Feed(s, Fi) == Going(Kws(z.below.below.below), Fi, Some(Fi))
  {
    PopOne(z, Fi, 0);
    assert z.kw == Else && z.below.Pending? && ZipOk(z.below);
    PopOne(z.below, Else, 1);
    assert z.below.kw == Then && z.below.below.Pending? && ZipOk(z.below.below);
    PopOne(z.below.below, Then, 2);
    assert Pops(Kws(z.below.below.below), Fi, 3) == Some((Kws(z.below.below.below), Fi));
  }

  lemma PopOne(z: Zip, prev: Token, j: nat)
    requires z.Pending? && j < 3
    ensures Pops(Kws(z), prev, j) ==
            if z.kw == Else && prev == Fi then Pops(Kws(z.below), Else, j + 1)
            else if z.kw == Then && prev == Else then Pops(Kws(z.below), Then, j + 1)
            else if z.kw == If && prev == Then then Pops(Kws(z.below), Fi, j + 1)
            else None
  {
    var stk := Kws(z);
    assert stk[|stk| - 1] == z.kw && stk[..|stk| - 1] == Kws(z.below);
  }

  lemma Regroup<T>(f: seq<T>, i: seq<T>, c: seq<T>, j: seq<T>, t: seq<T>, k: seq<T>, e: seq<T>, m: seq<T>)
    ensures f + i + c + j + t + k + e + m == f + (i + c + j + t + k + e + m)
  {
  }

  lemma StepFi(z: Zip, s: Scan) returns (stmt: Stmt, z0: Zip)
    requires Sim(z, s) && Feed(s, Fi) != Reject
    ensures Read(z) + [Fi] == Read(z0) + FlatStmt(stmt) && Ifs(z) == Ifs(z0) + 1
    ensures Feed(s, Fi) == Going(Kws(z0), Fi, Some(Fi))
    ensures z0.Pending? ==> ZipOk(z0) && z0.body.None?
  {
    FiPopsThree(z, s);
    assert ZipOk(z.below) && ZipOk(z.below.below);
    var c, t, e := z.below.below.body.value, z.below.body.value, z.body.value;
    stmt := IfStmt(c, t, e);
    z0 := z.below.below.below;
    assert Read(z) == Read(z.below) + [Else] + FlatBody(e);
    assert Read(z.below) == Read(z.below.below) + [Then] + FlatBody(t);
    assert Read(z.below.below) == Read(z0) + [If] + FlatBody(c);
    assert Ifs(z) == Ifs(z.below) == Ifs(z.below.below) == Ifs(z0) + 1;
    Regroup(Read(z0), [If], FlatBody(c), [Then], FlatBody(t), [Else], FlatBody(e), [Fi]);
  }

  lemma CloseNested(z: Zip, stmt: Stmt) returns (z': Zip)
    requires ZipOk(z) && z.body.None?
    ensures ZipOk(z') && z'.body.Some? && Kws(z') == Kws(z) && Ifs(z') == Ifs(z)
    ensures Read(z') == Read(z) + FlatStmt(stmt)
  {
    z' := z.(body := Some(Nested(stmt, [])));
    assert FlatStmt(stmt) + Plains([]) == FlatStmt(stmt);
    assert BodyTokens(z'.body) == FlatStmt(stmt) && BodyTokens(z.body) == [];
    var before := Read(z.below) + [z.kw];
    assert Read(z) == before + [] == before && Read(z') == before + FlatStmt(stmt);
  }

  // ------------------------------------------------------------------- the rest

  // One token: either it closes the line's statement, or the partial parse moves on.
  lemma ParseStep(z: Zip, s: Scan, t: Token) returns (stmt: Option<Stmt>, z': Zip)
    requires Sim(z, s) && Feed(s, t) != Reject
    ensures stmt.Some? ==> t == Fi && Read(z) + [t] == FlatStmt(stmt.value) && Ifs(z) == 1
    ensures stmt.None? ==> Sim(z', Feed(s, t)) && Read(z') == Read(z) + [t] && Ifs(z') == Ifs(z) + Delta(t)
  {
    stmt, z' := None, Empty;
    match t
    case Fi =>
      var st, z0 := StepFi(z, s);
      if z0.Empty? { stmt := Some(st); } else { z' := CloseNested(z0, st); }
    case Plain(w) => z' := StepPlain(z, s, w);
    case _ => z' := StepOpen(z, s, t);
  }

  predicate AllPlain(ts: seq<Token>) { forall k :: 0 <= k < |ts| ==> ts[k].Plain? }

  predicate Finishes(s: Scan, rest: seq<Token>) {
    RunScan(s, rest).Going? && RunScan(s, rest).stk == []
  }

  lemma OneToken(s: Scan, d: nat, rest: seq<Token>)
    requires s.Going? && s.stk != [] && Finishes(s, rest) && d >= 1
    ensures rest != [] && Feed(s, rest[0]) != Reject && Finishes(Feed(s, rest[0]), rest[1..])
    ensures Depth(d, rest) == Depth(d + Delta(rest[0]), rest[1..])
  {
    RejectStays(rest[1..]);
  }

  // The next token of a line that is accepted
  lemma ParseOne(z: Zip, s: Scan, rest: seq<Token>) returns (done: Option<Stmt>, z': Zip)
    requires Sim(z, s) && Finishes(s, rest)
    ensures rest != []
    ensures done.Some? ==> Read(z) + rest == FlatStmt(done.value) + rest[1..]
    ensures done.Some? && Depth(Ifs(z), rest) >= 0 ==> AllPlain(rest[1..])
    ensures done.None? ==> Sim(z', Feed(s, rest[0])) && Finishes(Feed(s, rest[0]), rest[1..])
    ensures done.None? ==> Read(z) + rest == Read(z') + rest[1..] && Depth(Ifs(z), rest) == Depth(Ifs(z'), rest[1..])
  {
    IfsPositive(z);
    OneToken(s, Ifs(z), rest);
    MoveOver(Read(z), rest);
    done, z' := ParseStep(z, s, rest[0]);
    DepthClosed(rest[1..]);
  }

  lemma {:induction false} ParseFrom(z: Zip, s: Scan, rest: seq<Token>) returns (stmt: Stmt, tail: seq<Token>)
    requires Sim(z, s) && Finishes(s, rest)
    ensures Read(z) + rest == FlatStmt(stmt) + tail
    ensures Depth(Ifs(z), rest) >= 0 ==> AllPlain(tail)
    decreases |rest|
  {
    var done, z' := ParseOne(z, s, rest);
    if done.Some? {
      stmt, tail := done.value, rest[1..];
    } else {
      stmt, tail := ParseFrom(z', Feed(s, rest[0]), rest[1..]);
    }
  }

  lemma MoveOver(a: seq<Token>, b: seq<Token>)
    requires b != []
    ensures a + b == (a + [b[0]]) + b[1..]
  {
  }

  lemma {:induction false} DepthClosed(ts: seq<Token>)
    ensures Depth(0, ts) >= 0 ==> AllPlain(ts)
    decreases |ts|
  {
    if ts != [] && ts[0].Plain? {
      DepthClosed(ts[1..]);
      assert forall k :: 1 <= k < |ts| ==> ts[k] == ts[1..][k - 1];
    }
  }

  lemma {:induction false} WordsOf(ts: seq<Token>) returns (ws: seq<string>)
    requires AllPlain(ts)
    ensures Plains(ws) == ts
    decreases |ts|
  {
    if ts == [] {
      ws := [];
    } else {
      ws := WordsOf(ts[1..]);
      ws := [ts[0].word] + ws;
    }
  }

  lemma Begin(ts: seq<Token>) returns (stmt: Stmt, tail: seq<Token>)
    requires ts != [] && ts[0] == If && Accepts(ts)
    ensures ts == FlatStmt(stmt) + tail
    ensures Depth(1, ts[1..]) >= 0 ==> AllPlain(tail)
  {
    var z := Pending(Empty, If, None);
    assert Kws(z) == [If] && Read(z) == [If] && Ifs(z) == 1;
    assert [] + [If] == [If];
    stmt, tail := ParseFrom(z, Feed(START, If), ts[1..]);
    assert [If] + ts[1..] == ts;
  }

  // Whatever follows, a line the shell lets through begins with a statement.
  lemma AcceptedBeginsWithStmt(ts: seq<Token>)
    requires ts != [] && ts[0] == If && Accepts(ts)
    ensures exists s: Stmt, rest: seq<Token> :: ts == FlatStmt(s) + rest
  {
    var s, rest := Begin(ts);
  }

  // The recogniser accepts exactly the grammar among the lines in which nothing
  // but words follows the closing "fi"; it accepts more when a keyword does.
  lemma AcceptsIffDerivable(ts: seq<Token>)
    requires ts != [] && ts[0] == If
    ensures Derivable(ts) <==> Accepts(ts) && StopsAtClose(ts)
  {
    if Derivable(ts) {
      DerivableIsAccepted(ts);
      DerivableStops(ts);
    }
    if Accepts(ts) && StopsAtClose(ts) {
      var s, tail := Begin(ts);
      var ws := WordsOf(tail);
    }
  }

  // What may follow the first statement of a line: the tail is read with an empty
  // stack, where a "fi" pops nothing, an "if" is refused and the symbol popped last
  // carries over from one group of keywords to the next.
  predicate TailAccepted(tail: seq<Token>) { Finishes(Going([], Fi, Some(Fi)), tail) }

  // A line is accepted exactly when it is a statement and such a tail.
  lemma AcceptsIffTail(ts: seq<Token>)
    requires ts != [] && ts[0] == If
    ensures Accepts(ts) <==> exists s: Stmt, tail: seq<Token> :: ts == FlatStmt(s) + tail && TailAccepted(tail)
  {
    if Accepts(ts) {
      var s, tail := Begin(ts);
      RunStmt(s, [], None);
      RunAppend(START, FlatStmt(s), tail);
      assert ts == FlatStmt(s) + tail && TailAccepted(tail);
    }
    forall s: Stmt, tail: seq<Token> | ts == FlatStmt(s) + tail && TailAccepted(tail)
      ensures Accepts(ts)
    {
      RunStmt(s, [], None);
      RunAppend(START, FlatStmt(s), tail);
    }
  }

  // Any words and "fi"s may follow, and no "if" that does not come after a "then"
  // or an "else".
  lemma {:induction false} FisAndWordsAccepted(tail: seq<Token>, prev: Token, last: Option<Token>)
    requires !AfterOpening(last) && forall k :: 0 <= k < |tail| ==> tail[k] == Fi || tail[k].Plain?
    ensures Finishes(Going([], prev, last), tail)
    decreases |tail|
  {
    if tail != [] {
      FisAndWordsAccepted(tail[1..], prev, Some(tail[0]));
    }
  }

  lemma {:induction false} NoIfInTail(before: seq<Token>, after: seq<Token>, prev: Token, last: Option<Token>)
    requires last.Some? && !AfterOpening(last) && forall k :: 0 <= k < |before| ==> before[k] == Fi || before[k].Plain?
    ensures !Finishes(Going([], prev, last), before + [If] + after)
    decreases |before|
  {
    if before == [] {
      assert [] + [If] + after == [If] + after && ([If] + after)[1..] == after;
      RejectStays(after);
    } else {
      assert (before + [If] + after)[1..] == before[1..] + [If] + after;
      NoIfInTail(before[1..], after, prev, Some(before[0]));
    }
  }

  lemma OpenPart(stk: seq<Token>, last: Option<Token>, kw: Token, b: Body)
    requires (kw == Then || kw == Else) && !AfterOpening(last)
    ensures var r := RunScan(Going(stk, Fi, last), [kw] + FlatBody(b));
            r.Going? && r.stk == stk + [kw] && r.prev == Fi && !AfterOpening(r.last)
  {
    var s := Going(stk, Fi, last);
    RunSnoc(s, [], kw);
    assert [] + [kw] == [kw];
    RunAppend(s, [kw], FlatBody(b));
    RunBody(b, stk + [kw], Some(kw));
  }

  // After a closed statement an else part with its "fi" is accepted too, leaving
  // the "fi" without its "then" and "if".
  lemma ElsePart(b: Body)
    ensures RunScan(Going([], Fi, Some(Fi)), [Else] + FlatBody(b) + [Fi]) == Going([], Else, Some(Fi))
  {
    var s := Going([], Fi, Some(Fi));
    OpenPart([], Some(Fi), Else, b);
    assert [] + [Else] == [Else];
    RunSnoc(s, [Else] + FlatBody(b), Fi);
    assert [Else][..0] == [] && Pops([], Else, 1) == Some(([], Else));
  }

  // So are a then and an else part.
  lemma ThenElsePart(a: Body, b: Body)
    ensures RunScan(Going([], Fi, Some(Fi)), [Then] + FlatBody(a) + ([Else] + FlatBody(b)) + [Fi]) ==
            Going([], Then, Some(Fi))
  {
    var s := Going([], Fi, Some(Fi));
    var p1, p2 := [Then] + FlatBody(a), [Else] + FlatBody(b);
    OpenPart([], Some(Fi), Then, a);
    assert [] + [Then] == [Then];
    OpenPart([Then], RunScan(s, p1).last, Else, b);
    assert [Then] + [Else] == [Then, Else];
    RunAppend(s, p1, p2);
    RunSnoc(s, p1 + p2, Fi);
    PopsTwo();
  }

  lemma PopsTwo()
    ensures Pops([Then, Else], Fi, 0) == Some(([], Then))
  {
    assert [Then, Else][..1] == [Then] && [Then][..0] == [];
    assert Pops([], Then, 2) == Some(([], Then));
    assert Pops([Then], Else, 1) == Pops([], Then, 2);
  }

  lemma {:induction false} RunWords(ws: seq<string>, stk: seq<Token>, prev: Token, last: Option<Token>)
    ensures var r := RunScan(Going(stk, prev, last), Plains(ws));
            r.Going? && r.stk == stk && r.prev == prev && (ws != [] ==> !AfterOpening(r.last))
            && (ws == [] ==> r.last == last)
    decreases |ws|
  {
    if ws != [] {
      RunWords(ws[1..], stk, prev, Some(Plain(ws[0])));
    }
  }

  // With nothing open, a "then" or "else", some words and a "fi" pass exactly when
  // the keyword is the one due after the symbol popped last, which it then is.
  lemma GroupIff(prev: Token, kw: Token, ws: seq<string>)
    requires (kw == Then || kw == Else) && ws != []
    ensures RunScan(Going([], prev, Some(Fi)), [kw] + Plains(ws) + [Fi]) ==
            if (kw == Else && prev == Fi) || (kw == Then && prev == Else) then Going([], kw, Some(Fi)) else Reject
  {
    var s := Going([], prev, Some(Fi));
    RunSnoc(s, [], kw);
    assert [] + [kw] == [kw];
    RunAppend(s, [kw], Plains(ws));
    RunWords(ws, [kw], prev, Some(kw));
    RunSnoc(s, [kw] + Plains(ws), Fi);
    assert [kw][..0] == [] && Pops([], kw, 1) == Some(([], kw));
  }

  // Lines with such tails are accepted, and one with a lone then part is not.
  lemma TailsOfLines(s: Stmt, a: Body, b: Body, ws: seq<string>)
    requires ws != []
    ensures Accepts(FlatStmt(s) + ([Else] + FlatBody(b) + [Fi]))
    ensures Accepts(FlatStmt(s) + ([Then] + FlatBody(a) + ([Else] + FlatBody(b)) + [Fi]))
    ensures !Accepts(FlatStmt(s) + ([Then] + Plains(ws) + [Fi]))
  {
    ElsePart(b);
    ThenElsePart(a, b);
    GroupIff(Fi, Then, ws);
    RunStmt(s, [], None);
    RunAppend(START, FlatStmt(s), [Else] + FlatBody(b) + [Fi]);
    RunAppend(START, FlatStmt(s), [Then] + FlatBody(a) + ([Else] + FlatBody(b)) + [Fi]);
    RunAppend(START, FlatStmt(s), [Then] + Plains(ws) + [Fi]);
  }

  // A stray "fi" after a closed statement is accepted and is not in the language.
  lemma StrayFiAccepted(a: string, b: string, c: string)
    ensures var ts := FlatStmt(IfStmt(Words(a, []), Words(b, []), Words(c, []))) + [Fi];
            Accepts(ts) && !Derivable(ts)
  {
    var s := IfStmt(Words(a, []), Words(b, []), Words(c, []));
    RunStmt(s, [], None);
    RunSnoc(START, FlatStmt(s), Fi);
    assert Pops([], Fi, 0) == Some(([], Fi));
    DepthStmt(0, s);
    DepthAppend(1, Inside(s), [Fi]);
    assert (FlatStmt(s) + [Fi])[1..] == Inside(s) + [Fi];
    AcceptsIffDerivable(FlatStmt(s) + [Fi]);
  }
}
