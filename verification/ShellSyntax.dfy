// The shell's if/then/else/fi language: tokens and syntax trees.
module ShellSyntax {

  // A command with its arguments is one token.
  datatype Token = If | Then | Else | Fi | Plain(word: string)

  // Stmt ::= if Body then Body else Body fi
  // Body ::= Plain+ | Stmt Plain*
  datatype Stmt = IfStmt(cond: Body, yes: Body, no: Body)
  datatype Body = Words(first: string, rest: seq<string>) | Nested(stmt: Stmt, rest: seq<string>)

  function Plains(ws: seq<string>): (ts: seq<Token>)
    ensures |ts| == |ws| && forall k :: 0 <= k < |ts| ==> ts[k] == Plain(ws[k])
  {
    if ws == [] then [] else [Plain(ws[0])] + Plains(ws[1..])
  }

  function FlatStmt(s: Stmt): seq<Token> {
    [If] + FlatBody(s.cond) + [Then] + FlatBody(s.yes) + [Else] + FlatBody(s.no) + [Fi]
  }

  function FlatBody(b: Body): seq<Token> {
    match b
    case Words(first, rest) => [Plain(first)] + Plains(rest)
    case Nested(stmt, rest) => FlatStmt(stmt) + Plains(rest)
  }

  // The complete lines of the language: a statement and trailing words.
  ghost predicate Derivable(ts: seq<Token>) {
    exists s: Stmt, ws: seq<string> :: ts == FlatStmt(s) + Plains(ws)
  }
}
