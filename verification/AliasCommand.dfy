// What a typed alias command comes to: trimming, cutting at '=' and quotes.
module AliasCommand {
  import opened AliasTable
  import opened AliasText
  import opened Options

  // ------------------------------------------------------------------- trimming

  predicate AllBlank(s: string) { forall i :: 0 <= i < |s| ==> Blank(s[i]) }

  // Spaces, control characters, and everything from 128 on.
  lemma BlankIff(c: char)
    ensures Blank(c) <==> c as int % 256 <= 32 || c as int % 256 >= 128
  {
  }

  lemma {:induction false} TrimRightOver(s: string, q: string)
    requires s != "" && !Blank(s[|s| - 1]) && AllBlank(q)
    ensures TrimRight(s + q) == s
    decreases |q|
  {
    if q == "" {
      assert s + q == s;
    } else {
      assert (s + q)[..|s + q| - 1] == s + q[..|q| - 1];
      TrimRightOver(s, q[..|q| - 1]);
    }
  }

  lemma {:induction false} TrimLeftOver(p: string, s: string)
    requires s != "" && !Blank(s[0]) && AllBlank(p)
    ensures TrimLeft(p + s) == s
    decreases |p|
  {
    if p == "" {
      assert p + s == s;
    } else {
      assert (p + s)[1..] == p[1..] + s;
      TrimLeftOver(p[1..], s);
    }
  }

  lemma UntabParts(a: string, b: string)
    ensures Untab(a + b) == Untab(a) + Untab(b)
  {
  }

  // Blanks around a command go, tabs in it become spaces, and nothing else changes.
  lemma CleanedIs(p: string, s: string, q: string)
    requires AllBlank(p) && AllBlank(q) && s != "" && !Blank(s[0]) && !Blank(s[|s| - 1])
    ensures Cleaned(p + s + q) == Untab(s)
  {
    UntabParts(p + s, q);
    UntabParts(p, s);
    TrimRightOver(Untab(p) + Untab(s), Untab(q));
    TrimLeftOver(Untab(p), Untab(s));
  }

  // ------------------------------------------------------------- cutting at '='

  function Signs(n: nat): string { seq(n, _ => '=') }

  // Pieces with seps[0], seps[1], ... signs before, between and after them
  function Mesh(toks: seq<string>, seps: seq<nat>): string
    requires |seps| == |toks| + 1
  {
    if toks == [] then Signs(seps[0]) else Signs(seps[0]) + (toks[0] + Mesh(toks[1..], seps[1..]))
  }

  // Pieces are not empty and hold no sign, and there are signs between them.
  predicate Meshed(toks: seq<string>, seps: seq<nat>) {
    && |seps| == |toks| + 1 && (forall i :: 0 <= i < |toks| ==> toks[i] != "" && '=' !in toks[i])
    && forall i :: 1 <= i < |toks| ==> seps[i] > 0
  }

  lemma {:induction false} RunsSkip(n: nat, s: string)
    ensures Runs(Signs(n) + s, "") == Runs(s, "")
  {
    if n == 0 {
      assert Signs(0) + s == s;
    } else {
      assert (Signs(n) + s)[1..] == Signs(n - 1) + s;
      RunsSkip(n - 1, s);
      assert [] + Runs(s, "") == Runs(s, "");
    }
  }

  lemma RunEnds(tok: string, s: string)
    requires tok != "" && '=' !in tok && (s == "" || s[0] == '=')
    ensures Runs(tok + s, "") == [tok] + Runs(s, "")
  {
    RunsOver(tok, s, "");
    assert "" + tok == tok;
    if s == "" {
      assert [tok] + [] == [tok];
    } else {
      assert [] + Runs(s[1..], "") == Runs(s[1..], "");
    }
  }

  // The strtok loop gives back the pieces, however many signs there are.
  lemma {:induction false} RunsOfMesh(toks: seq<string>, seps: seq<nat>)
    requires Meshed(toks, seps)
    ensures Runs(Mesh(toks, seps), "") == toks
    decreases |toks|
  {
    if toks == [] {
      RunsSkip(seps[0], "");
      assert Signs(seps[0]) + "" == Signs(seps[0]);
    } else {
      var rest := Mesh(toks[1..], seps[1..]);
      RunsSkip(seps[0], toks[0] + rest);
      RunEnds(toks[0], rest);
      RunsOfMesh(toks[1..], seps[1..]);
    }
  }

  // Every text is such a mesh, of the pieces the loop gives.
  lemma {:induction false} EveryMesh(s: string) returns (seps: seq<nat>)
    ensures Meshed(Runs(s, ""), seps) && s == Mesh(Runs(s, ""), seps)
  {
    var toks;
    toks, seps := MeshOf(s);
    RunsOfMesh(toks, seps);
  }

  lemma {:induction false} MeshOf(s: string) returns (toks: seq<string>, seps: seq<nat>)
    ensures Meshed(toks, seps) && s == Mesh(toks, seps)
    decreases |s|
  {
    if s == "" {
      toks, seps := [], [0];
    } else {
      toks, seps := MeshOf(s[1..]);
      if s[0] == '=' {
        seps := MoreSigns(s, toks, seps);
      } else if seps[0] == 0 && toks != [] {
        toks := LongerPiece(s, toks, seps);
      } else {
        toks, seps := NewPiece(s, toks, seps);
      }
    }
  }

  lemma MoreSigns(s: string, toks: seq<string>, seps: seq<nat>) returns (r: seq<nat>)
    requires s != "" && s[0] == '=' && Meshed(toks, seps) && s[1..] == Mesh(toks, seps)
    ensures Meshed(toks, r) && s == Mesh(toks, r)
  {
    r := seps[0 := seps[0] + 1];
    assert Signs(r[0]) == ['='] + Signs(seps[0]) && r[1..] == seps[1..];
    assert s == ['='] + s[1..];
  }

  lemma LongerPiece(s: string, toks: seq<string>, seps: seq<nat>) returns (r: seq<string>)
    requires s != "" && s[0] != '=' && Meshed(toks, seps) && s[1..] == Mesh(toks, seps) && seps[0] == 0 && toks != []
    ensures Meshed(r, seps) && s == Mesh(r, seps)
  {
    r := toks[0 := [s[0]] + toks[0]];
    var rest := Mesh(toks[1..], seps[1..]);
    assert r[1..] == toks[1..] && Signs(0) == "" && s == [s[0]] + s[1..];
    assert "" + (toks[0] + rest) == toks[0] + rest;
    assert [s[0]] + (toks[0] + rest) == "" + (r[0] + rest);
  }

  lemma NewPiece(s: string, toks: seq<string>, seps: seq<nat>) returns (r: seq<string>, rs: seq<nat>)
    requires s != "" && s[0] != '=' && Meshed(toks, seps) && s[1..] == Mesh(toks, seps) && (seps[0] > 0 || toks == [])
    ensures Meshed(r, rs) && s == Mesh(r, rs)
  {
    r, rs := [[s[0]]] + toks, [0] + seps;
    assert r[1..] == toks && rs[1..] == seps && Signs(0) == "" && s == [s[0]] + s[1..];
  }

  // ------------------------------------------------------------------- quotes

  // What becomes of a piece whose first quote comes after `a`: a quote at the front
  // goes, with the last character if there is another quote; a quote further on
  // takes the first and the last character with it and stays.
  lemma QuoteCosts(a: string, b: string)
    requires '"' !in a
    ensures var tok := a + ("\"" + b);
            Dequote(tok) == if a != "" then tok[1..|tok| - 1] else if '"' in b then b[..|b| - 1] else b
  {
    var tok := a + ("\"" + b);
    assert tok[|a|] == '"';
    if a != "" {
      assert tok[1..][|a| - 1] == '"';
    } else {
      assert tok[1..] == b;
    }
  }

  lemma Quoted(w: string)
    ensures Dequote("\"" + w + "\"") == w
  {
    assert "\"" + w + "\"" == "" + ("\"" + (w + "\""));
    QuoteCosts("", w + "\"");
    assert (w + "\"")[|w|] == '"' && (w + "\"")[..|w|] == w;
  }

  // The pieces of any command
  lemma PiecesOf(toks: seq<string>, seps: seq<nat>)
    requires Meshed(toks, seps)
    ensures AliasParams(ALIAS + Mesh(toks, seps)) == Some(["alias"] + DequoteAll(toks))
  {
    RunsOfMesh(toks, seps);
    assert (ALIAS + Mesh(toks, seps))[|ALIAS|..] == Mesh(toks, seps);
  }

  // alias k="w" defines k as w, whatever blanks are around it: quotes are for the
  // blanks at the end of w, and w may hold quotes of its own.
  lemma QuotedAlias(p: string, k: string, w: string, q: string)
    requires AllBlank(p) && AllBlank(q) && k != "" && '=' !in k && '"' !in k && '=' !in w
    ensures AliasParams(Cleaned(p + Typed(k, "\"" + w + "\"") + q)) == Some(["alias", Untab(k), Untab(w)])
  {
    var v := "\"" + Untab(w) + "\"";
    var cmd := Typed(k, "\"" + w + "\"");
    assert cmd[|cmd| - 1] == '"' && cmd[0] == 'a';
    CleanedIs(p, cmd, q);
    assert Untab(cmd) == ALIAS + (Untab(k) + "=" + v);
    Quoted(Untab(w));
    TwoPieces(Untab(k), v);
    assert Dequote(Untab(k)) == Untab(k);
  }

  function Typed(k: string, v: string): string { ALIAS + (k + "=" + v) }

  // One sign between two pieces
  lemma TwoPieces(k: string, v: string)
    requires k != "" && v != "" && '=' !in k && '=' !in v
    ensures AliasParams(ALIAS + (k + "=" + v)) == Some(["alias", Dequote(k), Dequote(v)])
  {
    RunsOfTwo(k, v);
    assert OneRun(k) + OneRun(v) == [k, v];
    assert (ALIAS + (k + "=" + v))[|ALIAS|..] == k + "=" + v;
    assert ["alias"] + DequoteAll([k, v]) == ["alias", Dequote(k), Dequote(v)];
  }

  // A value with one quote: at the front only the quote goes, elsewhere the first
  // and the last character go and the quote stays unless it is the last.
  lemma OneQuote(k: string, a: string, b: string)
    requires k != "" && '=' !in k && '"' !in k && '=' !in a && '=' !in b && '"' !in a && '"' !in b
    ensures var v := a + ("\"" + b);
            AliasParams(Typed(k, v)) == Some(["alias", k, if a == "" then b else v[1..|v| - 1]])
  {
    TwoPieces(k, a + ("\"" + b));
    QuoteCosts(a, b);
  }
}
