// When the saved lines, parsed one by one, give the alias table back, as a condition
// on the table.
//
// Each saved line adds at most one entry when it is read, and that entry is no
// longer than the one the line was written for, with equality only for lines that
// read back right.  So a table that comes back whole was saved in such lines.
module AliasReload {
  import opened AliasTable
  import opened AliasStore
  import opened AliasText
  import opened Options

  function EntryWeight(e: Entry): nat { |e.key| + |e.val| + 1 }

  function MainWeight(main: seq<Option<Entry>>): nat {
    if main == [] then 0
    else
      var before := MainWeight(main[..|main| - 1]);
      match main[|main| - 1]
      case None => before
      case Some(e) => before + EntryWeight(e)
  }

  function OvWeight(ov: seq<Entry>): nat {
    if ov == [] then 0 else OvWeight(ov[..|ov| - 1]) + EntryWeight(ov[|ov| - 1])
  }

  // What reading a line adds.
  function LineWeight(line: string): nat {
    match AliasParams(Cleaned(line))
    case None => 0
    case Some(p) => if |p| < 3 then 0 else |p[1]| + |p[2]| + 1
  }

  // ------------------------------------------------------------------ tokens

  lemma {:induction false} RunsNotEmpty(s: string, cur: string)
    ensures forall i :: 0 <= i < |Runs(s, cur)| ==> Runs(s, cur)[i] != ""
    decreases |s|
  {
    if s != "" {
      if s[0] == '=' { RunsNotEmpty(s[1..], ""); } else { RunsNotEmpty(s[1..], cur + [s[0]]); }
    }
  }

  lemma {:induction false} RunsWithout(s: string, cur: string, c: char)
    requires c !in s && c !in cur
    ensures forall i :: 0 <= i < |Runs(s, cur)| ==> c !in Runs(s, cur)[i]
    decreases |s|
  {
    if s != "" {
      if s[0] == '=' { RunsWithout(s[1..], "", c); } else { RunsWithout(s[1..], cur + [s[0]], c); }
    }
  }

  lemma {:induction false} FirstRun(s: string, cur: string)
    requires Runs(s, cur) != []
    ensures |Runs(s, cur)[0]| <= |cur| + |s|
    ensures |Runs(s, cur)[0]| == |cur| + |s| ==> cur + s == Runs(s, cur)[0]
    decreases |s|
  {
    if s == "" {
      assert cur + s == cur;
    } else if s[0] == '=' {
      if cur == "" { FirstRun(s[1..], ""); }
    } else {
      FirstRun(s[1..], cur + [s[0]]);
      assert cur + [s[0]] + s[1..] == cur + s;
    }
  }

  lemma {:induction false} TwoRuns(s: string, cur: string)
    requires |Runs(s, cur)| >= 2
    ensures var r := Runs(s, cur);
            && |r[0]| + |r[1]| + 1 <= |cur| + |s|
            && (|r[0]| + |r[1]| + 1 == |cur| + |s| ==> cur + s == r[0] + "=" + r[1])
    decreases |s|
  {
    if s != "" && s[0] == '=' {
      if cur == "" {
        TwoRuns(s[1..], "");
      } else {
        FirstRun(s[1..], "");
        assert "" + s[1..] == s[1..];
        assert cur + s == cur + "=" + s[1..];
      }
    } else if s != "" {
      TwoRuns(s[1..], cur + [s[0]]);
      assert cur + [s[0]] + s[1..] == cur + s;
    }
  }

  lemma DequoteKeeps(tok: string)
    ensures |Dequote(tok)| <= |tok| && (|Dequote(tok)| == |tok| <==> '"' !in tok)
  {
  }

  lemma EqAt(s: string, c: string, d: string, j: nat)
    requires s == c + "=" + d && '=' !in c && '=' !in d && j < |s| && s[j] == '='
    ensures j == |c|
  {
  }

  lemma OneEq(a: string, b: string, c: string, d: string)
    requires a + "=" + b == c + "=" + d && '=' !in c && '=' !in d
    ensures a == c && b == d
  {
    var s := a + "=" + b;
    EqAt(s, c, d, |a|);
    assert a == s[..|a|] == c;
    assert b == s[|a| + 1..] == d;
  }

  // The first two tokens of key=value
  lemma TwoTokens(k: string, v: string)
    requires |Runs(k + "=" + v, "")| >= 2
    ensures var r := Runs(k + "=" + v, ""); var n := |Dequote(r[0])| + |Dequote(r[1])|;
            && n <= |k| + |v|
            && (n == |k| + |v| ==> k != "" && v != "" && Bare(k) && Bare(v))
  {
    var body := k + "=" + v;
    var r := Runs(body, "");
    TwoRuns(body, "");
    assert "" + body == body;
    DequoteKeeps(r[0]);
    DequoteKeeps(r[1]);
    RunsHaveNoEq(body, "");
    RunsNotEmpty(body, "");
    if |r[0]| + |r[1]| == |k| + |v| {
      OneEq(k, v, r[0], r[1]);
    }
  }

  predicate Bare(s: string) { '=' !in s && '"' !in s }

  // Keys and values that survive, tabs turned into spaces.
  predicate Survives(key: string, val: string) {
    && key != "" && val != "" && !Blank(Untab(val)[|val| - 1])
    && Bare(Untab(key)) && Bare(Untab(val))
  }

  // Reading a line adds no more than it was written for; as much only if it reads
  // back right, but for tabs.
  lemma LineLoses(key: string, val: string)
    ensures LineWeight(Line(key, val)) <= |key| + |val| + 1
    ensures LineWeight(Line(key, val)) == |key| + |val| + 1 ==> Survives(key, val)
  {
    CleanedLine(key, val);
    var k, v := Untab(key), TrimRight(Untab(val));
    var body := k + "=" + v;
    assert (ALIAS + body)[|ALIAS|..] == body;
    TrimRightIs(Untab(val));
    if |Runs(body, "")| >= 2 {
      TwoTokens(k, v);
    }
  }

  // ------------------------------------------------------------------- weights

  lemma {:induction false} MainWeightAt(main: seq<Option<Entry>>, h: nat, e: Entry)
    requires h < |main|
    ensures MainWeight(main[h := Some(e)]) <= MainWeight(main) + EntryWeight(e)
    decreases |main|
  {
    var n := |main| - 1;
    if h < n {
      MainWeightAt(main[..n], h, e);
      assert main[h := Some(e)][..n] == main[..n][h := Some(e)];
    } else {
      assert main[h := Some(e)][..n] == main[..n];
    }
  }

  lemma {:induction false} OvWeightAt(ov: seq<Entry>, i: nat, e: Entry)
    requires i < |ov|
    ensures OvWeight(ov[i := e]) <= OvWeight(ov) + EntryWeight(e)
    decreases |ov|
  {
    var n := |ov| - 1;
    if i < n {
      OvWeightAt(ov[..n], i, e);
      assert ov[i := e][..n] == ov[..n][i := e];
    } else {
      assert ov[i := e][..n] == ov[..n];
    }
  }

  function Total(t: Tbl): nat { MainWeight(t.main) + OvWeight(t.ov) }

  lemma AddWeighs(t: Tbl, key: string, val: string)
    requires Shape(t)
    ensures Total(AddTo(t, key, val)) <= Total(t) + |key| + |val| + 1
  {
    var h, e := Hash(key), Entry(key, val);
    if t.main[h].None? || t.main[h].value.key == key {
      MainWeightAt(t.main, h, e);
    } else {
      var i := FindKey(t.ov, key, 0);
      if i == -1 {
        assert (t.ov + [e])[..|t.ov|] == t.ov;
      } else {
        OvWeightAt(t.ov, i, e);
      }
    }
  }

  // What the lines for the main slots lose when they are read.
  function Loss(main: seq<Option<Entry>>): int {
    if main == [] then 0
    else
      var before := Loss(main[..|main| - 1]);
      match main[|main| - 1]
      case None => before
      case Some(e) => before + EntryWeight(e) - LineWeight(Line(e.key, e.val))
  }

  lemma {:induction false} EmptyWeighs(n: nat)
    ensures MainWeight(seq(n, _ => None)) == 0
  {
    if n > 0 {
      assert seq<Option<Entry>>(n, _ => None)[..n - 1] == seq<Option<Entry>>(n - 1, _ => None);
      EmptyWeighs(n - 1);
    }
  }

  lemma {:induction false} ReloadWeighs(main: seq<Option<Entry>>)
    ensures Total(Reload(Lines(main))) + Loss(main) <= MainWeight(main)
    decreases |main|
  {
    if main == [] {
      EmptyWeighs(MAIN);
    } else {
      var n := |main| - 1;
      ReloadWeighs(main[..n]);
      if main[n].Some? {
        ReloadAdds(Lines(main[..n]), Line(main[n].value.key, main[n].value.val));
      }
    }
  }

  lemma ReloadAdds(lines: seq<string>, line: string)
    ensures Total(Reload(lines + [line])) <= Total(Reload(lines)) + LineWeight(line)
  {
    assert (lines + [line])[..|lines|] == lines;
    match AliasParams(Cleaned(line))
    case None =>
    case Some(p) => if |p| >= 3 { AddWeighs(Reload(lines), p[1], p[2]); }
  }

  lemma {:induction false} LossIsZero(main: seq<Option<Entry>>)
    ensures Loss(main) >= 0
    ensures Loss(main) == 0 ==>
              forall h :: 0 <= h < |main| && main[h].Some? ==> Survives(main[h].value.key, main[h].value.val)
    decreases |main|
  {
    if main != [] {
      var n := |main| - 1;
      LossIsZero(main[..n]);
      if main[n].Some? {
        LineLoses(main[n].value.key, main[n].value.val);
      }
      assert forall h :: 0 <= h < n ==> main[h] == main[..n][h];
    }
  }

  // ---------------------------------------------------- characters that are lost

  ghost predicate FreeOf(t: Tbl, c: char) {
    && (forall h :: 0 <= h < |t.main| && t.main[h].Some? ==> Lacks(t.main[h].value, c))
    && (forall i :: 0 <= i < |t.ov| ==> Lacks(t.ov[i], c))
  }

  predicate Lacks(e: Entry, c: char) { c !in e.key && c !in e.val }

  lemma {:induction false} TrimKeeps(s: string, c: char)
    requires c !in s
    ensures c !in TrimRight(s) && c !in TrimLeft(s)
    decreases |s|
  {
    if s != "" {
      TrimKeeps(s[..|s| - 1], c);
      TrimKeeps(s[1..], c);
    }
  }

  lemma DequoteSubset(tok: string, c: char)
    ensures c !in tok ==> c !in Dequote(tok)
  {
  }

  // What is not in a line once tabs are spaces is not in what is read from it.
  lemma LineLacks(line: string, c: char)
    requires c !in Untab(line)
    ensures var p := AliasParams(Cleaned(line)); p.Some? ==> forall i :: 0 < i < |p.value| ==> c !in p.value[i]
  {
    var s := Cleaned(line);
    TrimKeeps(Untab(line), c);
    TrimKeeps(TrimRight(Untab(line)), c);
    if ALIAS <= s {
      var toks := Runs(s[|ALIAS|..], "");
      RunsWithout(s[|ALIAS|..], "", c);
      forall i | 0 < i < |toks| + 1
        ensures c !in (["alias"] + DequoteAll(toks))[i]
      {
        DequoteSubset(toks[i - 1], c);
      }
    }
  }

  lemma {:induction false} ReloadLacks(lines: seq<string>, c: char)
    requires forall i :: 0 <= i < |lines| ==> c !in Untab(lines[i])
    ensures FreeOf(Reload(lines), c)
    decreases |lines|
  {
    if lines != [] {
      ReloadLacks(lines[..|lines| - 1], c);
      LineLacks(lines[|lines| - 1], c);
    }
  }

  // ----------------------------------------------------------------- the table

  // The lines give back the main slots exactly when every entry in them reads back
  // right.
  lemma LinesReloadIff(t: Tbl)
    requires Placed(t)
    ensures Reload(Lines(t.main)) == Tbl(t.main, []) <==> AllReadBack(t.main)
  {
    if AllReadBack(t.main) {
      LinesReload(t);
    }
    if Reload(Lines(t.main)) == Tbl(t.main, []) {
      ReloadWeighs(t.main);
      LossIsZero(t.main);
      ReloadLacks(Lines(t.main), '\t');
      forall h | 0 <= h < MAIN && t.main[h].Some?
        ensures ReadsBack(t.main[h].value.key, t.main[h].value.val)
      {
        SurvivesUntabbed(t.main[h].value);
      }
    }
  }

  lemma SurvivesUntabbed(e: Entry)
    requires Lacks(e, '\t') && Survives(e.key, e.val)
    ensures ReadsBack(e.key, e.val)
  {
    assert Untab(e.key) == e.key && Untab(e.val) == e.val;
  }
}
