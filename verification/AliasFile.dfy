// The alias file: what is written to it, cut into lines again and reloaded.
module AliasFile {
  import opened AliasReload
  import opened AliasStore
  import opened AliasTable
  import opened AliasText
  import opened Options

  // -------------------------------------------------------------- reading lines

  const NEWLINE := '\n'

  function FirstLine(s: string): (l: string)
    ensures NEWLINE !in l && |l| <= |s|
  {
    if s == "" || s[0] == NEWLINE then "" else [s[0]] + FirstLine(s[1..])
  }

  function AfterLine(s: string): (r: string)
    ensures s != "" ==> |r| < |s|
  {
    if s == "" then "" else if s[0] == NEWLINE then s[1..] else AfterLine(s[1..])
  }

  // get_non_empty_line, from position `from` of the file
  method GetLine(file: string, from: nat) returns (line: string, to: nat)
    requires from <= |file|
    ensures from <= to <= |file| && line == FirstLine(file[from..]) && file[to..] == AfterLine(file[from..])
  {
    line, to := "", from;
    assert line + FirstLine(file[to..]) == FirstLine(file[from..]);
    while to < |file|
      invariant from <= to <= |file|
      invariant line + FirstLine(file[to..]) == FirstLine(file[from..])
      invariant AfterLine(file[to..]) == AfterLine(file[from..])
    {
      var c := file[to];
      assert file[to..][0] == c && file[to..][1..] == file[to + 1..];
      to := to + 1;
      if c == NEWLINE {
        assert line + "" == line;
        return;
      }
      assert line + ([c] + FirstLine(file[to..])) == (line + [c]) + FirstLine(file[to..]);
      line := line + [c];
    }
    assert line + "" == line;
  }

  // Reading stops at the first empty line.
  function FileLines(s: string): (ls: seq<string>)
    ensures forall i :: 0 <= i < |ls| ==> NEWLINE !in ls[i]
    decreases |s|
  {
    if FirstLine(s) == "" then [] else [FirstLine(s)] + FileLines(AfterLine(s))
  }

  // --------------------------------------------------------------- whole texts

  function TextOf(ls: seq<string>): string {
    if ls == [] then "" else ls[0] + ([NEWLINE] + TextOf(ls[1..]))
  }

  lemma {:induction false} TextSnoc(ls: seq<string>, l: string)
    ensures TextOf(ls + [l]) == TextOf(ls) + (l + [NEWLINE])
    decreases |ls|
  {
    if ls == [] {
      assert [] + [l] == [l] && [l][1..] == [];
      assert "" + (l + [NEWLINE]) == l + ([NEWLINE] + "");
    } else {
      assert (ls + [l])[1..] == ls[1..] + [l] && (ls + [l])[0] == ls[0];
      TextSnoc(ls[1..], l);
      assert ls[0] + ([NEWLINE] + (TextOf(ls[1..]) + (l + [NEWLINE]))) ==
             (ls[0] + ([NEWLINE] + TextOf(ls[1..]))) + (l + [NEWLINE]);
    }
  }

  lemma {:induction false} CutOne(l: string, rest: string)
    requires NEWLINE !in l
    ensures FirstLine(l + ([NEWLINE] + rest)) == l && AfterLine(l + ([NEWLINE] + rest)) == rest
    decreases |l|
  {
    if l == "" {
      assert l + ([NEWLINE] + rest) == [NEWLINE] + rest;
    } else {
      assert (l + ([NEWLINE] + rest))[1..] == l[1..] + ([NEWLINE] + rest);
      CutOne(l[1..], rest);
    }
  }

  // Lines written one after the other are read as they were written, and then what
  // follows them.
  lemma {:induction false} CutMore(ls: seq<string>, rest: string)
    requires forall i :: 0 <= i < |ls| ==> ls[i] != "" && NEWLINE !in ls[i]
    ensures FileLines(TextOf(ls) + rest) == ls + FileLines(rest)
    decreases |ls|
  {
    if ls == [] {
      assert "" + rest == rest;
    } else {
      var more := TextOf(ls[1..]) + rest;
      assert TextOf(ls) + rest == ls[0] + ([NEWLINE] + more);
      CutOne(ls[0], more);
      CutMore(ls[1..], rest);
    }
  }

  lemma CutAll(ls: seq<string>)
    requires forall i :: 0 <= i < |ls| ==> ls[i] != "" && NEWLINE !in ls[i]
    ensures FileLines(TextOf(ls)) == ls
  {
    CutMore(ls, "");
    assert TextOf(ls) + "" == TextOf(ls);
  }

  // An empty line ends the reading, whatever follows it; a last line need not end
  // in a newline.
  lemma ReadingEnds(ls: seq<string>, rest: string, last: string)
    requires forall i :: 0 <= i < |ls| ==> ls[i] != "" && NEWLINE !in ls[i]
    requires last != "" && NEWLINE !in last
    ensures FileLines(TextOf(ls) + ([NEWLINE] + rest)) == ls
    ensures FileLines(TextOf(ls) + last) == ls + [last]
  {
    CutMore(ls, [NEWLINE] + rest);
    CutMore(ls, last);
    LastLine(last);
  }

  lemma {:induction false} LastLine(l: string)
    requires NEWLINE !in l
    ensures FirstLine(l) == l && AfterLine(l) == ""
    decreases |l|
  {
    if l != "" {
      LastLine(l[1..]);
    }
  }

  // ----------------------------------------------------------------- the lines

  function Short(key: string, val: string): string { "alias " + key + "=" + val }

  function ShortLines(main: seq<Option<Entry>>): seq<string> {
    if main == [] then []
    else
      var before := ShortLines(main[..|main| - 1]);
      match main[|main| - 1]
      case None => before
      case Some(e) => before + [Short(e.key, e.val)]
  }

  lemma LineIsShort(key: string, val: string)
    ensures Line(key, val) == Short(key, val) + [NEWLINE] && Short(key, val) != ""
  {
  }

  lemma {:induction false} WrittenIs(main: seq<Option<Entry>>)
    ensures Written(main) == TextOf(ShortLines(main))
    decreases |main|
  {
    if main != [] {
      var n := |main| - 1;
      WrittenIs(main[..n]);
      if main[n].Some? {
        var e := main[n].value;
        LineIsShort(e.key, e.val);
        TextSnoc(ShortLines(main[..n]), Short(e.key, e.val));
      }
    }
  }

  // The newline is trimmed anyway.
  lemma CleanedShort(key: string, val: string)
    ensures Cleaned(Line(key, val)) == Cleaned(Short(key, val))
  {
    var s := Short(key, val);
    LineIsShort(key, val);
    assert Untab(s + [NEWLINE]) == Untab(s) + [NEWLINE];
    assert (Untab(s) + [NEWLINE])[..|s|] == Untab(s);
    assert Blank(NEWLINE);
  }

  lemma {:induction false} ReloadShort(main: seq<Option<Entry>>)
    ensures Reload(ShortLines(main)) == Reload(Lines(main))
    decreases |main|
  {
    if main != [] {
      var n := |main| - 1;
      ReloadShort(main[..n]);
      if main[n].Some? {
        var e := main[n].value;
        CleanedShort(e.key, e.val);
        assert (ShortLines(main[..n]) + [Short(e.key, e.val)])[..|ShortLines(main[..n])|] == ShortLines(main[..n]);
        assert (Lines(main[..n]) + [Line(e.key, e.val)])[..|Lines(main[..n])|] == Lines(main[..n]);
      }
    }
  }

  lemma {:induction false} ShortLinesWhole(main: seq<Option<Entry>>)
    requires forall h :: 0 <= h < |main| && main[h].Some? ==> Lacks(main[h].value, NEWLINE)
    ensures forall i :: 0 <= i < |ShortLines(main)| ==> ShortLines(main)[i] != "" && NEWLINE !in ShortLines(main)[i]
    decreases |main|
  {
    if main != [] {
      var n := |main| - 1;
      ShortLinesWhole(main[..n]);
      assert forall h :: 0 <= h < n ==> main[h] == main[..n][h];
    }
  }

  // ------------------------------------------------------------- the whole file

  // Keys and values that survive being written to the file and read.
  predicate Faithful(key: string, val: string) {
    ReadsBack(key, val) && NEWLINE !in key && NEWLINE !in val
  }

  // The commands in a file.
  function Commands(file: string): (r: seq<Option<seq<string>>>)
    ensures |r| == |FileLines(file)|
    ensures forall i :: 0 <= i < |r| ==> r[i] == AliasParams(Cleaned(FileLines(file)[i]))
  {
    seq(|FileLines(file)|, i requires 0 <= i < |FileLines(file)| => AliasParams(Cleaned(FileLines(file)[i])))
  }

  // A saved line reads back as the alias it was written for, and nothing else,
  // exactly when key and value are non-empty and free of '=', quotes, tabs and
  // newlines, and the value does not end in a blank.
  lemma ReadBackIff(key: string, val: string)
    ensures Commands(Line(key, val)) == [Some(["alias", key, val])] <==> Faithful(key, val)
  {
    var file := Line(key, val);
    if Commands(file) == [Some(["alias", key, val])] {
      var l := FileLines(file)[0];
      LineLacks(l, NEWLINE);
      assert ["alias", key, val][1] == key && ["alias", key, val][2] == val;
    }
    if NEWLINE !in key && NEWLINE !in val {
      LineIsShort(key, val);
      var l := Short(key, val);
      assert [l][1..] == [] && TextOf([l]) == l + ([NEWLINE] + "");
      assert l + ([NEWLINE] + "") == file;
      CutAll([l]);
      CleanedShort(key, val);
      LineReadBackIff(key, val);
      assert Commands(file) == [AliasParams(Cleaned(l))];
    }
  }

  ghost predicate AllFaithful(main: seq<Option<Entry>>) {
    forall h :: 0 <= h < |main| && main[h].Some? ==> Faithful(main[h].value.key, main[h].value.val)
  }

  lemma LoadedWhole(t: Tbl)
    requires forall h :: 0 <= h < |t.main| && t.main[h].Some? ==> Lacks(t.main[h].value, NEWLINE)
    ensures Reload(FileLines(Written(t.main))) == Reload(Lines(t.main))
  {
    WrittenIs(t.main);
    ShortLinesWhole(t.main);
    CutAll(ShortLines(t.main));
    ReloadShort(t.main);
  }

  // Saving to a file and reloading keeps the main slots as they were and drops the
  // overflow area, which is not used while reloading.
  lemma SaveThenReload(t: Tbl)
    requires Placed(t) && AllFaithful(t.main)
    ensures Reload(FileLines(Written(t.main))) == Tbl(t.main, [])
    ensures forall k :: GetFrom(Reload(FileLines(Written(t.main))), k) ==
              if k in MainMap(t.main) then GetFrom(t, k) else None
  {
    LoadedWhole(t);
    LinesReload(t);
  }

  // It gives back the main slots exactly when every entry in them is faithful.
  lemma ReloadIff(t: Tbl)
    requires Placed(t)
    ensures Reload(FileLines(Written(t.main))) == Tbl(t.main, []) <==> AllFaithful(t.main)
  {
    if AllFaithful(t.main) {
      SaveThenReload(t);
    }
    if Reload(FileLines(Written(t.main))) == Tbl(t.main, []) {
      ReloadLacks(FileLines(Written(t.main)), NEWLINE);
      LoadedWhole(t);
      LinesReloadIff(t);
      forall h | 0 <= h < |t.main| && t.main[h].Some?
        ensures Faithful(t.main[h].value.key, t.main[h].value.val)
      {
        assert ReadsBack(t.main[h].value.key, t.main[h].value.val) && Lacks(t.main[h].value, NEWLINE);
      }
    }
  }
}
