// The alias branch of the command parser, and reloading saved aliases.
module AliasText {
  import opened AliasTable
  import opened AliasStore
  import opened Options

  // A character the cleaner trims: at most 0x20 as a signed char.
  predicate Blank(c: char) { SignedChar(c) <= 0x20 }

  function Untab(s: string): (r: string)
    ensures |r| == |s| && forall i :: 0 <= i < |s| ==> r[i] == if s[i] == '\t' then ' ' else s[i]
  {
    seq(|s|, i requires 0 <= i < |s| => if s[i] == '\t' then ' ' else s[i])
  }

  function TrimRight(s: string): string {
    if s != "" && Blank(s[|s| - 1]) then TrimRight(s[..|s| - 1]) else s
  }

  function TrimLeft(s: string): string {
    if s != "" && Blank(s[0]) then TrimLeft(s[1..]) else s
  }

  function Cleaned(s: string): string { TrimLeft(TrimRight(Untab(s))) }

  // cleanCmd on a buffer holding n characters: afterwards the string starts at
  // lo and ends before hi, and terminators follow.  The text runs off the front
  // of a buffer of blanks.
  method CleanCmd(buf: array<char>) returns (lo: nat, hi: nat)
    requires exists k :: 0 <= k < buf.Length && !Blank(buf[k])
    modifies buf
    ensures lo < hi <= buf.Length && buf[lo..hi] == Cleaned(old(buf[..]))
    ensures forall k :: hi <= k < buf.Length ==> buf[k] == '\0'
    ensures !Blank(buf[lo]) && !Blank(buf[hi - 1])
    ensures forall k :: 0 <= k < buf.Length && !(lo <= k < hi) ==> Blank(old(buf[k]))
    ensures forall k :: lo <= k < hi ==> buf[k] == if old(buf[k]) == '\t' then ' ' else old(buf[k])
  {
    ghost var k :| 0 <= k < buf.Length && !Blank(buf[k]);
    ghost var s := Untab(buf[..]);
    BlanksUntab(buf[..]);
    Untabbed(buf);
    assert forall i :: 0 <= i < buf.Length ==> buf[i] == s[i];
    hi := CutTail(buf, k);
    assert forall i :: 0 <= i < hi ==> buf[i] == s[i];
    lo := SkipHead(buf, hi, k);
  }

  lemma BlanksUntab(s: string)
    ensures forall i :: 0 <= i < |s| ==> (Blank(Untab(s)[i]) <==> Blank(s[i]))
  {
  }

  method Untabbed(buf: array<char>)
    modifies buf
    ensures buf[..] == Untab(old(buf[..]))
  {
    for i := 0 to buf.Length
      invariant forall k :: 0 <= k < i ==> buf[k] == Untab(old(buf[..]))[k]
      invariant forall k :: i <= k < buf.Length ==> buf[k] == old(buf[k])
    {
      if buf[i] == '\t' {
        buf[i] := ' ';
      }
    }
  }

  method CutTail(buf: array<char>, ghost w: nat) returns (hi: nat)
    requires w < buf.Length && !Blank(buf[w])
    modifies buf
    ensures w < hi <= buf.Length && buf[..hi] == TrimRight(old(buf[..])) == old(buf[..hi])
    ensures !Blank(buf[hi - 1]) && (forall k :: hi <= k < buf.Length ==> Blank(old(buf[k])))
    ensures forall k :: 0 <= k < hi ==> buf[k] == old(buf[k])
    ensures forall k :: hi <= k < buf.Length ==> buf[k] == '\0'
  {
    ghost var s := buf[..];
    hi := buf.Length;
    assert s[..hi] == s;
    while Blank(buf[hi - 1])
      invariant w < hi <= buf.Length && TrimRight(s) == TrimRight(s[..hi])
      invariant buf[..hi] == s[..hi] && forall k :: hi <= k < buf.Length ==> Blank(s[k])
      invariant forall k :: hi <= k < buf.Length ==> buf[k] == '\0'
      decreases hi
    {
      assert s[..hi][hi - 1] == buf[..hi][hi - 1] == buf[hi - 1];
      assert s[..hi][..hi - 1] == s[..hi - 1];
      buf[hi - 1] := '\0';
      hi := hi - 1;
      assert buf[..hi] == s[..hi];
    }
    assert s[..hi][hi - 1] == buf[..hi][hi - 1] == buf[hi - 1];
  }

  method SkipHead(buf: array<char>, hi: nat, ghost w: nat) returns (lo: nat)
    requires w < hi <= buf.Length && !Blank(buf[w])
    ensures lo < hi && buf[lo..hi] == TrimLeft(buf[..hi])
    ensures !Blank(buf[lo]) && forall k :: 0 <= k < lo ==> Blank(buf[k])
  {
    ghost var s := buf[..hi];
    lo := 0;
    assert s[0..] == s;
    while Blank(buf[lo])
      invariant 0 <= lo <= w && TrimLeft(s) == TrimLeft(s[lo..])
      invariant forall k :: 0 <= k < lo ==> Blank(buf[k])
      decreases w - lo
    {
      assert s[lo..][0] == buf[lo] && s[lo..][1..] == s[lo + 1..];
      lo := lo + 1;
    }
    assert s[lo..][0] == buf[lo];
    assert buf[lo..hi] == s[lo..];
  }

  // The maximal runs of characters other than '=', as repeated strtok calls
  // yield them; `cur` is the run begun.
  function Runs(s: string, cur: string): seq<string> {
    if s == "" then (if cur == "" then [] else [cur])
    else if s[0] == '=' then (if cur == "" then [] else [cur]) + Runs(s[1..], "")
    else Runs(s[1..], cur + [s[0]])
  }

  // A token with a quote anywhere loses its first character and, if a quote is
  // still there, its last one.
  function Dequote(tok: string): string {
    if '"' !in tok then tok
    else var t := tok[1..]; if '"' in t then t[..|t| - 1] else t
  }

  function DequoteAll(toks: seq<string>): (r: seq<string>)
    ensures |r| == |toks| && forall i :: 0 <= i < |r| ==> r[i] == Dequote(toks[i])
  {
    seq(|toks|, i requires 0 <= i < |toks| => Dequote(toks[i]))
  }

  const ALIAS := "alias "

  // The alias branch of parseCmd on a cleaned command: None if it is not taken.
  function AliasParams(cmd: string): Option<seq<string>> {
    if ALIAS <= cmd then Some(["alias"] + DequoteAll(Runs(cmd[|ALIAS|..], ""))) else None
  }

  // One strtok call at a character other than '='.
  method NextToken(cmd: string, from: nat) returns (tok: string, i: nat)
    requires from < |cmd| && cmd[from] != '='
    ensures from < i <= |cmd| && tok == cmd[from..i]
    ensures Runs(cmd[from..], "") == [tok] + Runs(cmd[i..], "")
  {
    i := from;
    assert cmd[from..i] == "";
    while i < |cmd| && cmd[i] != '='
      invariant from <= i <= |cmd| && Runs(cmd[from..], "") == Runs(cmd[i..], cmd[from..i])
      invariant i == from ==> cmd[i] != '='
      decreases |cmd| - i
    {
      assert cmd[i..][0] == cmd[i] && cmd[i..][1..] == cmd[i + 1..];
      assert cmd[from..i] + [cmd[i]] == cmd[from..i + 1];
      i := i + 1;
    }
    tok := cmd[from..i];
    if i < |cmd| { assert cmd[i..][0] == '='; assert [tok] + Runs(cmd[i..], "") == Runs(cmd[i..], tok); }
  }

  // The strtok loop.
  method ParseAlias(cmd: string) returns (params: seq<string>)
    requires ALIAS <= cmd
    ensures Some(params) == AliasParams(cmd)
  {
    params := ["alias"];
    var i := |ALIAS|;
    ghost var all := Runs(cmd[i..], "");
    ghost var done: seq<string> := [];
    while i < |cmd|
      invariant |ALIAS| <= i <= |cmd| && all == done + Runs(cmd[i..], "")
      invariant params == ["alias"] + DequoteAll(done)
    {
      if cmd[i] == '=' {
        i := i + 1;
      } else {
        var tok;
        tok, i := NextToken(cmd, i);
        assert DequoteAll(done + [tok]) == DequoteAll(done) + [Dequote(tok)];
        done := done + [tok];
        params := params + [Dequote(tok)];
      }
    }
    assert cmd[i..] == "";
    assert all == done;
  }

  // --------------------------------------------------------- one line read back

  // Keys and values that survive being written as a line and parsed.
  predicate ReadsBack(key: string, val: string) {
    && key != "" && val != "" && !Blank(val[|val| - 1])
    && Unmarked(key) && Unmarked(val)
  }

  predicate Unmarked(s: string) { '=' !in s && '"' !in s && '\t' !in s }

  lemma {:induction false} TrimRightAfter(p: string, s: string)
    requires p != "" && !Blank(p[|p| - 1])
    ensures TrimRight(p + s) == p + TrimRight(s)
    decreases |s|
  {
    if s == "" {
      assert p + s == p && p + TrimRight(s) == p;
    } else if Blank(s[|s| - 1]) {
      assert (p + s)[..|p + s| - 1] == p + s[..|s| - 1];
      TrimRightAfter(p, s[..|s| - 1]);
    }
  }

  lemma CleanedLine(key: string, val: string)
    ensures Cleaned(Line(key, val)) == ALIAS + (Untab(key) + "=" + TrimRight(Untab(val)))
  {
    var p := ALIAS + Untab(key) + "=";
    var v := Untab(val);
    assert Untab(Line(key, val)) == p + (v + "\n");
    TrimRightAfter(p, v + "\n");
    assert (v + "\n")[..|v|] == v;
    assert TrimRight(v + "\n") == TrimRight(v);
    var s := p + TrimRight(v);
    assert s[0] == 'a' && TrimLeft(s) == s;
    assert s == ALIAS + (Untab(key) + "=" + TrimRight(v));
  }

  lemma {:induction false} RunsOver(a: string, rest: string, cur: string)
    requires '=' !in a
    ensures Runs(a + rest, cur) == Runs(rest, cur + a)
    decreases |a|
  {
    if a == "" {
      assert a + rest == rest && cur + a == cur;
    } else {
      assert (a + rest)[1..] == a[1..] + rest;
      RunsOver(a[1..], rest, cur + [a[0]]);
      assert cur + [a[0]] + a[1..] == cur + a;
    }
  }

  function OneRun(s: string): seq<string> { if s == "" then [] else [s] }

  lemma RunsOfTwo(k: string, v: string)
    requires '=' !in k && '=' !in v
    ensures Runs(k + "=" + v, "") == OneRun(k) + OneRun(v)
  {
    assert k + "=" + v == k + ("=" + v);
    RunsOver(k, "=" + v, "");
    assert "" + k == k && ("=" + v)[1..] == v;
    assert v + "" == v && "" + v == v;
    RunsOver(v, "", "");
    assert Runs("", v) == OneRun(v);
  }

  lemma {:induction false} RunsHaveNoEq(s: string, cur: string)
    requires '=' !in cur
    ensures forall i :: 0 <= i < |Runs(s, cur)| ==> '=' !in Runs(s, cur)[i]
    decreases |s|
  {
    if s != "" {
      if s[0] == '=' { RunsHaveNoEq(s[1..], ""); } else { RunsHaveNoEq(s[1..], cur + [s[0]]); }
    }
  }

  lemma DequoteIs(tok: string)
    ensures Dequote(tok) == tok <==> '"' !in tok
    ensures '=' !in tok ==> '=' !in Dequote(tok)
    ensures |Dequote(tok)| <= |tok|
  {
  }

  lemma TrimRightIs(s: string)
    ensures |TrimRight(s)| <= |s|
    ensures s != "" ==> (TrimRight(s) == s <==> !Blank(s[|s| - 1]))
    ensures |TrimRight(s)| == |s| ==> TrimRight(s) == s
    ensures '=' !in s ==> '=' !in TrimRight(s)
  {
  }

  // A saved line reads back as the alias it was written for exactly when key and
  // value are non-empty and free of '=', quotes and tabs, and the value does not
  // end in a blank.
  lemma LineReadBackIff(key: string, val: string)
    ensures AliasParams(Cleaned(Line(key, val))) == Some(["alias", key, val]) <==> ReadsBack(key, val)
  {
    CleanedLine(key, val);
    var body := Untab(key) + "=" + TrimRight(Untab(val));
    assert (ALIAS + body)[|ALIAS|..] == body;
    if ReadsBack(key, val) {
      ReadBack(key, val);
    }
    if AliasParams(ALIAS + body) == Some(["alias", key, val]) {
      OnlyReadsBack(key, val, body);
    }
  }

  lemma ReadBack(key: string, val: string)
    requires ReadsBack(key, val)
    ensures Untab(key) + "=" + TrimRight(Untab(val)) == key + "=" + val
    ensures ["alias"] + DequoteAll(Runs(key + "=" + val, "")) == ["alias", key, val]
  {
    assert Untab(key) == key && Untab(val) == val;
    TrimRightIs(val);
    RunsOfTwo(key, val);
    assert OneRun(key) + OneRun(val) == [key, val];
    DequoteIs(key);
    DequoteIs(val);
  }

  lemma OnlyReadsBack(key: string, val: string, body: string)
    requires body == Untab(key) + "=" + TrimRight(Untab(val))
    requires ["alias"] + DequoteAll(Runs(body, "")) == ["alias", key, val]
    ensures ReadsBack(key, val)
  {
    var k, v := Untab(key), TrimRight(Untab(val));
    var toks := Runs(body, "");
    assert DequoteAll(toks) == (["alias"] + DequoteAll(toks))[1..] == [key, val];
    assert key == Dequote(toks[0]) && val == Dequote(toks[1]);
    RunsHaveNoEq(body, "");
    DequoteIs(toks[0]);
    DequoteIs(toks[1]);
    assert '=' !in k && '=' !in Untab(val);
    TrimRightIs(Untab(val));
    RunsOfTwo(k, v);
    assert toks == OneRun(k) + OneRun(v);
    assert toks == [k, v];
    DequoteIs(k);
    DequoteIs(v);
    assert Untab(key) == key;
    assert forall i :: 0 <= i < |key| ==> key[i] == Untab(key)[i] != '\t';
    assert forall i :: 0 <= i < |val| ==> val[i] == Untab(val)[i] != '\t';
  }

  // ---------------------------------------------------------- the whole table

  // Parsing each line in turn and entering it in a new table.
  function Reload(lines: seq<string>): (t: Tbl)
    ensures Shape(t)
  {
    if lines == [] then EmptyTbl()
    else
      var t := Reload(lines[..|lines| - 1]);
      match AliasParams(Cleaned(lines[|lines| - 1]))
      case None => t
      case Some(p) => if |p| < 3 then t else AddTo(t, p[1], p[2])
  }

  function FirstSlots(main: seq<Option<Entry>>, n: nat): (r: seq<Option<Entry>>)
    requires |main| == MAIN && n <= MAIN
    ensures |r| == MAIN && forall i :: 0 <= i < MAIN ==> r[i] == if i < n then main[i] else None
  {
    seq(MAIN, i requires 0 <= i < MAIN => if i < n then main[i] else None)
  }

  ghost predicate AllReadBack(main: seq<Option<Entry>>) {
    forall h :: 0 <= h < |main| && main[h].Some? ==> ReadsBack(main[h].value.key, main[h].value.val)
  }

  lemma ReloadOne(lines: seq<string>, key: string, val: string)
    requires ReadsBack(key, val)
    ensures Reload(lines + [Line(key, val)]) == AddTo(Reload(lines), key, val)
  {
    LineReadBackIff(key, val);
    assert (lines + [Line(key, val)])[..|lines|] == lines;
    assert ["alias", key, val][1] == key && ["alias", key, val][2] == val;
  }

  lemma {:induction false} ReloadFirst(t: Tbl, n: nat)
    requires Placed(t) && AllReadBack(t.main) && n <= MAIN
    ensures Reload(Lines(t.main[..n])) == Tbl(FirstSlots(t.main, n), [])
    decreases n
  {
    if n == 0 {
      assert t.main[..0] == [];
      assert FirstSlots(t.main, 0) == EmptyTbl().main;
    } else {
      ReloadFirst(t, n - 1);
      ReloadNext(t, n);
    }
  }

  lemma ReloadNext(t: Tbl, n: nat)
    requires Placed(t) && AllReadBack(t.main) && 0 < n <= MAIN
    requires Reload(Lines(t.main[..n - 1])) == Tbl(FirstSlots(t.main, n - 1), [])
    ensures Reload(Lines(t.main[..n])) == Tbl(FirstSlots(t.main, n), [])
  {
    LinesSnoc(t.main, n);
    match t.main[n - 1]
    case None =>
      assert FirstSlots(t.main, n) == FirstSlots(t.main, n - 1);
    case Some(e) =>
      assert ReadsBack(e.key, e.val);
      ReloadOne(Lines(t.main[..n - 1]), e.key, e.val);
      NextSlot(t, n, e);
  }

  lemma LinesSnoc(main: seq<Option<Entry>>, n: nat)
    requires 0 < n <= |main|
    ensures Lines(main[..n]) == match main[n - 1]
              case None => Lines(main[..n - 1])
              case Some(e) => Lines(main[..n - 1]) + [Line(e.key, e.val)]
  {
    assert main[..n][..n - 1] == main[..n - 1];
  }

  lemma NextSlot(t: Tbl, n: nat, e: Entry)
    requires Placed(t) && 0 < n <= MAIN && t.main[n - 1] == Some(e)
    ensures AddTo(Tbl(FirstSlots(t.main, n - 1), []), e.key, e.val) == Tbl(FirstSlots(t.main, n), [])
  {
    assert FirstSlots(t.main, n) == FirstSlots(t.main, n - 1)[n - 1 := Some(e)];
  }

  // Parsing the lines keeps the main slots as they were and drops the overflow
  // area, which is not used meanwhile.
  lemma LinesReload(t: Tbl)
    requires Placed(t) && AllReadBack(t.main)
    ensures Reload(Lines(t.main)) == Tbl(t.main, [])
    ensures forall k :: GetFrom(Reload(Lines(t.main)), k) == if k in MainMap(t.main) then GetFrom(t, k) else None
  {
    ReloadFirst(t, MAIN);
    assert t.main[..MAIN] == t.main;
    assert FirstSlots(t.main, MAIN) == t.main;
    MainMapIs(t.main);
  }
}
