// Splitting a command into its arguments.
module Tokeniser {
  import opened Options

  const QUOTE := '"'
  const SPACE := ' '

  // Spaces outside quotes from position i on.
  function Spaces(s: string, i: nat, skip: bool): nat
    requires i <= |s|
    decreases |s| - i
  {
    if i == |s| then 0
    else if s[i] == QUOTE then Spaces(s, i + 1, !skip)
    else (if !skip && s[i] == SPACE then 1 else 0) + Spaces(s, i + 1, skip)
  }

  // count_spaces
  method CountSpaces(s: string) returns (n: nat)
    ensures n == Spaces(s, 0, false)
  {
    n := 0;
    var skip := false;
    for i := 0 to |s|
      invariant n + Spaces(s, i, skip) == Spaces(s, 0, false)
    {
      if s[i] == QUOTE {
        skip := !skip;
      } else if !skip && s[i] == SPACE {
        n := n + 1;
      }
    }
  }

  // The pieces still to come from position i on, `cur` being the piece begun.
  function Pieces(s: string, i: nat, skip: bool, cur: string): seq<string>
    requires i <= |s|
    decreases |s| - i
  {
    if i == |s| then []
    else if s[i] == QUOTE then
      if i == |s| - 1 then [cur] else Pieces(s, i + 1, !skip, cur)
    else if !skip && s[i] == SPACE then [cur] + Pieces(s, i + 1, skip, "")
    else if i == |s| - 1 then [cur + [s[i]]]
    else Pieces(s, i + 1, skip, cur + [s[i]])
  }

  function Split(s: string): seq<string> { Pieces(s, 0, false, "") }

  // Inside quotes after reading s[..i].
  function Quoted(s: string, i: nat, skip: bool): bool
    requires i <= |s|
    decreases |s| - i
  {
    if i == |s| then skip else Quoted(s, i + 1, if s[i] == QUOTE then !skip else skip)
  }

  // The last character is a space outside quotes.
  predicate TrailingSpace(s: string, i: nat, skip: bool)
    requires i <= |s|
  {
    i < |s| && s[|s| - 1] == SPACE && !Quoted(s, i, skip)
  }

  // One piece for every unquoted space, and one more unless the last character
  // is such a space (or there is none).
  lemma {:induction false} PieceCount(s: string, i: nat, skip: bool, cur: string)
    requires i <= |s|
    ensures |Pieces(s, i, skip, cur)| == Spaces(s, i, skip) + (if i == |s| || TrailingSpace(s, i, skip) then 0 else 1)
    decreases |s| - i
  {
    if i < |s| {
      assert Quoted(s, i, skip) == Quoted(s, i + 1, if s[i] == QUOTE then !skip else skip);
      if s[i] == QUOTE { PieceCount(s, i + 1, !skip, cur); }
      else if !skip && s[i] == SPACE { PieceCount(s, i + 1, skip, ""); }
      else { PieceCount(s, i + 1, skip, cur + [s[i]]); }
    }
  }

  // split, into a table sized as execute_single sizes it; every store is within
  // the table, and a null entry ends it.
  method SplitCommand(s: string) returns (list: array<Option<string>>, n: nat)
    ensures fresh(list) && n == |Split(s)| < list.Length
    ensures forall k :: 0 <= k < n ==> list[k] == Some(Split(s)[k])
    ensures list[n] == None
  {
    var spaces := CountSpaces(s);
    PieceCount(s, 0, false, "");
    list := new Option<string>[spaces + 3](_ => None);
    n := 0;
    var skip, cur := false, "";
    for i := 0 to |s|
      invariant n + |Pieces(s, i, skip, cur)| == |Split(s)|
      invariant forall k :: 0 <= k < n ==> list[k] == Some(Split(s)[k])
      invariant Split(s)[n..] == Pieces(s, i, skip, cur)
    {
      if s[i] == QUOTE {
        skip := !skip;
        if i == |s| - 1 {
          list[n] := Some(cur);
          n := n + 1;
        }
      } else if !skip && s[i] == SPACE {
        list[n] := Some(cur);
        n := n + 1;
        cur := "";
      } else if i == |s| - 1 {
        list[n] := Some(cur + [s[i]]);
        n := n + 1;
      } else {
        cur := cur + [s[i]];
      }
    }
    list[n] := None;
  }

  // ------------------------------------------------------------ quoting undone

  predicate QuoteFree(w: string) { QUOTE !in w }

  function Quote(w: string): string { [QUOTE] + w + [QUOTE] }

  function JoinQuoted(ws: seq<string>): string
    requires ws != []
  {
    if |ws| == 1 then Quote(ws[0]) else Quote(ws[0]) + ([SPACE] + JoinQuoted(ws[1..]))
  }

  // Reading a quoted word to its closing quote.
  lemma {:induction false} InsideQuotes(s: string, i: nat, j: nat, cur: string)
    requires i <= j < |s| && QuoteFree(s[i..j]) && s[j] == QUOTE
    ensures Pieces(s, i, true, cur) == Pieces(s, j, true, cur + s[i..j])
    decreases j - i
  {
    if i < j {
      assert s[i] == s[i..j][0] && s[i + 1..j] == s[i..j][1..];
      InsideQuotes(s, i + 1, j, cur + [s[i]]);
      assert cur + [s[i]] + s[i + 1..j] == cur + s[i..j];
    } else {
      assert cur + s[i..j] == cur;
    }
  }

  lemma {:induction false} SplitQuoted(ws: seq<string>, s: string, i: nat)
    requires ws != [] && (forall k :: 0 <= k < |ws| ==> QuoteFree(ws[k]))
    requires i <= |s| && s[i..] == JoinQuoted(ws)
    ensures Pieces(s, i, false, "") == ws
    decreases |ws|
  {
    var w := ws[0];
    var rest := if |ws| == 1 then "" else [SPACE] + JoinQuoted(ws[1..]);
    assert JoinQuoted(ws) == Quote(w) + rest;
    OneWord(s, i, w, rest);
    if |ws| > 1 {
      assert rest[1..] == JoinQuoted(ws[1..]);
      SplitQuoted(ws[1..], s, i + 3 + |w|);
    }
  }

  // A quoted word and what follows it.
  lemma OneWord(s: string, i: nat, w: string, rest: string)
    requires i <= |s| && s[i..] == Quote(w) + rest && QuoteFree(w)
    ensures i + 2 + |w| <= |s|
    ensures rest == "" ==> Pieces(s, i, false, "") == [w]
    ensures rest != "" && rest[0] == SPACE ==>
              && i + 3 + |w| <= |s| && s[i + 3 + |w|..] == rest[1..]
              && Pieces(s, i, false, "") == [w] + Pieces(s, i + 3 + |w|, false, "")
  {
    var j := i + 1 + |w|;
    Layout(s, i, w, rest);
    InsideQuotes(s, i + 1, j, "");
    assert "" + w == w;
    if rest != "" {
      assert s[j + 1] == s[j + 1..][0];
      assert s[j + 2..] == s[j + 1..][1..];
    }
  }

  lemma Layout(s: string, i: nat, w: string, rest: string)
    requires i <= |s| && s[i..] == Quote(w) + rest
    ensures i + 1 + |w| < |s| && s[i] == QUOTE && s[i + 1..i + 1 + |w|] == w && s[i + 1 + |w|] == QUOTE
    ensures s[i + 2 + |w|..] == rest
  {
    var t := s[i..];
    assert t[0] == QUOTE && t[1..1 + |w|] == w && t[1 + |w|] == QUOTE && t[2 + |w|..] == rest;
    assert s[i + 1..i + 1 + |w|] == t[1..1 + |w|] && s[i + 2 + |w|..] == t[2 + |w|..];
  }

  // Tokenising undoes quoting.
  lemma SplitUndoesQuoting(ws: seq<string>)
    requires ws != [] && forall k :: 0 <= k < |ws| ==> QuoteFree(ws[k])
    ensures Split(JoinQuoted(ws)) == ws
  {
    assert JoinQuoted(ws)[0..] == JoinQuoted(ws);
    SplitQuoted(ws, JoinQuoted(ws), 0);
  }

  // ------------------------------------------- nothing but quotes is taken away

  function Unquoted(s: string): string {
    if s == "" then "" else if s[0] == QUOTE then Unquoted(s[1..]) else [s[0]] + Unquoted(s[1..])
  }

  function JoinSpaces(ws: seq<string>): string {
    if ws == [] then "" else if |ws| == 1 then ws[0] else ws[0] + [SPACE] + JoinSpaces(ws[1..])
  }

  function FinalSpace(s: string, i: nat, skip: bool): string
    requires i <= |s|
  {
    if TrailingSpace(s, i, skip) then [SPACE] else ""
  }

  lemma {:induction false} JoinPieces(s: string, i: nat, skip: bool, cur: string)
    requires i < |s|
    ensures JoinSpaces(Pieces(s, i, skip, cur)) + FinalSpace(s, i, skip) == cur + Unquoted(s[i..])
    ensures Pieces(s, i, skip, cur) != []
    decreases |s| - i
  {
    assert s[i..] == [s[i]] + s[i + 1..];
    assert Quoted(s, i, skip) == Quoted(s, i + 1, if s[i] == QUOTE then !skip else skip);
    if i == |s| - 1 {
      LastPiece(s, i, skip, cur);
    } else if s[i] == QUOTE {
      JoinPieces(s, i + 1, !skip, cur);
    } else if !skip && s[i] == SPACE {
      JoinPieces(s, i + 1, skip, "");
      JoinCons(cur, Pieces(s, i + 1, skip, ""), FinalSpace(s, i + 1, skip), Unquoted(s[i + 1..]));
    } else {
      JoinPieces(s, i + 1, skip, cur + [s[i]]);
      assert cur + [s[i]] + Unquoted(s[i + 1..]) == cur + ([s[i]] + Unquoted(s[i + 1..]));
    }
  }

  lemma LastPiece(s: string, i: nat, skip: bool, cur: string)
    requires i == |s| - 1
    ensures JoinSpaces(Pieces(s, i, skip, cur)) + FinalSpace(s, i, skip) == cur + Unquoted(s[i..])
    ensures Pieces(s, i, skip, cur) != []
  {
    assert s[i..] == [s[i]];
    assert Unquoted([s[i]]) == if s[i] == QUOTE then "" else [s[i]];
    assert Quoted(s, i, skip) == if s[i] == QUOTE then !skip else skip;
  }

  lemma JoinCons(w: string, rest: seq<string>, t: string, u: string)
    requires rest != [] && JoinSpaces(rest) + t == "" + u
    ensures JoinSpaces([w] + rest) + t == w + ([SPACE] + u)
  {
    assert ([w] + rest)[1..] == rest;
    assert (w + [SPACE] + JoinSpaces(rest)) + t == w + ([SPACE] + (JoinSpaces(rest) + t));
  }

  // The pieces joined by spaces are the input without its quotes, less one final
  // unquoted space; there are at most one more of them than counted spaces.
  lemma SplitKeepsText(s: string)
    ensures JoinSpaces(Split(s)) + FinalSpace(s, 0, false) == Unquoted(s)
    ensures |Split(s)| <= Spaces(s, 0, false) + 1
  {
    PieceCount(s, 0, false, "");
    if s != "" {
      JoinPieces(s, 0, false, "");
      assert s[0..] == s;
      assert "" + Unquoted(s) == Unquoted(s);
    }
  }
}
