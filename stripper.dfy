/** The token-stream comment and docstring stripper `remove_comments_and_docstrings`
    (stockholm_diff.py:15-67). The token stream is an input: Python's tokenizer is not
    part of this model. */
module TokenStripper {
  import opened Text

  /** The token types Python's `tokenize.generate_tokens` produces. */
  datatype TokenType =
    | EndMarker | Name | Number | String | Newline | Indent | Dedent | Op | Comment | Nl
    | ErrorToken | FStringStart | FStringMiddle | FStringEnd

  /** A (row, column) position: rows count from 1, columns from 0. */
  datatype Position = Position(line: nat, col: nat)

  /** One token: type, text, start, end and the physical line it was read from. */
  datatype Token = Token(kind: TokenType, text: string, start: Position, end: Position, physicalLine: string)

  // The loop of the source carries three variables. Each of them, before token i, is a
  // function of token i - 1 alone (or of the initial values when i == 0); the functions
  // below give that closed form, against which the loop is proved.

  /** `prev_toktype` before token i: INDENT before the first token. */
  function PrevKind(tokens: seq<Token>, i: nat): TokenType
    requires i <= |tokens|
  {
    if i == 0 then Indent else tokens[i - 1].kind
  }

  /** `last_lineno` before token i: -1 before the first token. */
  function LastLine(tokens: seq<Token>, i: nat): int
    requires i <= |tokens|
  {
    if i == 0 then -1 else tokens[i - 1].end.line
  }

  /** `last_col` before token i: 0 before the first token. */
  function LastCol(tokens: seq<Token>, i: nat): nat
    requires i <= |tokens|
  {
    if i == 0 then 0 else tokens[i - 1].end.col
  }

  /** The number of blanks written before token i, whether or not the token itself is kept. */
  function Padding(tokens: seq<Token>, i: nat): nat
    requires i < |tokens|
  {
    var base := if tokens[i].start.line > LastLine(tokens, i) then 0 else LastCol(tokens, i);
    if tokens[i].start.col > base then tokens[i].start.col - base else 0
  }

  /** The rule for STRING tokens: kept only after a token that is neither INDENT nor
      NEWLINE, and only when it does not start in column 0. */
  predicate KeepsString(prev: TokenType, startCol: nat) {
    prev != Indent && prev != Newline && startCol > 0
  }

  /** Token `t`, preceded by a token of type `prev`, has its text written. */
  predicate Emits(t: Token, prev: TokenType) {
    t.kind != Comment && (t.kind == String ==> KeepsString(prev, t.start.col))
  }

  /** What is written for token i: its padding, then its text if it is kept. */
  function Piece(tokens: seq<Token>, i: nat): string
    requires i < |tokens|
  {
    Spaces(Padding(tokens, i)) + (if Emits(tokens[i], PrevKind(tokens, i)) then tokens[i].text else "")
  }

  /** The output after the first n tokens: their pieces, in stream order. */
  function Stripped(tokens: seq<Token>, n: nat): string
    requires n <= |tokens|
  {
    if n == 0 then "" else Stripped(tokens, n - 1) + Piece(tokens, n - 1)
  }

  /** The texts of the kept tokens among the first n, concatenated in stream order. */
  function KeptText(tokens: seq<Token>, n: nat): string
    requires n <= |tokens|
  {
    if n == 0 then ""
    else KeptText(tokens, n - 1) + (if Emits(tokens[n - 1], PrevKind(tokens, n - 1)) then tokens[n - 1].text else "")
  }

  /** `remove_comments_and_docstrings`, one loop over the token stream. */
  method RemoveCommentsAndDocstrings(tokens: seq<Token>) returns (out: string)
    ensures out == Stripped(tokens, |tokens|)
  {
    out := "";
    var prevToktype := Indent;
    var lastLineno: int := -1;
    var lastCol: nat := 0;
    for i := 0 to |tokens|
      invariant prevToktype == PrevKind(tokens, i)
      invariant lastLineno == LastLine(tokens, i)
      invariant lastCol == LastCol(tokens, i)
      invariant out == Stripped(tokens, i)
    {
      var tok := tokens[i];
      ghost var before := out;
      if tok.start.line > lastLineno {
        lastCol := 0;
      }
      if tok.start.col > lastCol {
        out := out + Spaces(tok.start.col - lastCol);
      }
      ghost var padded := out;
      assert padded == before + Spaces(Padding(tokens, i));
      if tok.kind == Comment {
      } else if tok.kind == String {
        if prevToktype != Indent {
          if prevToktype != Newline {
            if tok.start.col > 0 {
              out := out + tok.text;
            }
          }
        }
      } else {
        out := out + tok.text;
      }
      assert out == padded + (if Emits(tok, PrevKind(tokens, i)) then tok.text else "");
      AppendAssoc(before, Spaces(Padding(tokens, i)), if Emits(tok, PrevKind(tokens, i)) then tok.text else "");
      prevToktype := tok.kind;
      lastCol := tok.end.col;
      lastLineno := tok.end.line;
    }
  }

  lemma AppendAssoc(a: string, b: string, c: string)
    ensures (a + b) + c == a + (b + c)
  {
  }

  /** COMMENT tokens contribute blanks only, never their text. */
  lemma CommentNeverWritten(tokens: seq<Token>, i: nat)
    requires i < |tokens| && tokens[i].kind == Comment
    ensures Piece(tokens, i) == Spaces(Padding(tokens, i))
  {
  }

  /** Every token that is neither COMMENT nor STRING is written verbatim after its padding. */
  lemma OtherTokensVerbatim(tokens: seq<Token>, i: nat)
    requires i < |tokens| && tokens[i].kind != Comment && tokens[i].kind != String
    ensures Piece(tokens, i) == Spaces(Padding(tokens, i)) + tokens[i].text
  {
  }

  /** A STRING token is kept exactly when it is not the first token, the token before it
      is neither INDENT nor NEWLINE, and it does not start in column 0. */
  lemma StringRule(tokens: seq<Token>, i: nat)
    requires i < |tokens| && tokens[i].kind == String
    ensures Emits(tokens[i], PrevKind(tokens, i)) <==>
      i > 0 && tokens[i - 1].kind != Indent && tokens[i - 1].kind != Newline && tokens[i].start.col > 0
  {
  }

  /** The padding before token i: its start column on a new line, otherwise the gap after
      the end of the token before it (never negative). */
  lemma PaddingRule(tokens: seq<Token>, i: nat)
    requires i < |tokens|
    ensures i == 0 || tokens[i].start.line > tokens[i - 1].end.line ==>
      Padding(tokens, i) == tokens[i].start.col
    ensures i > 0 && tokens[i].start.line <= tokens[i - 1].end.line ==>
      Padding(tokens, i) == if tokens[i].start.col > tokens[i - 1].end.col
                            then tokens[i].start.col - tokens[i - 1].end.col else 0
  {
  }

  /** Apart from whitespace, the output is exactly the texts of the kept tokens, in
      stream order: no comment text and no dropped string ever reaches it. */
  lemma {:induction false} StrippedIsKeptText(tokens: seq<Token>, n: nat)
    requires n <= |tokens|
    ensures RemoveSpaces(Stripped(tokens, n)) == RemoveSpaces(KeptText(tokens, n))
  {
    if n > 0 {
      StrippedIsKeptText(tokens, n - 1);
      var txt := if Emits(tokens[n - 1], PrevKind(tokens, n - 1)) then tokens[n - 1].text else "";
      DropPadding(Stripped(tokens, n - 1), KeptText(tokens, n - 1), Padding(tokens, n - 1), txt);
    }
  }

  /** Blanks written before a text vanish once whitespace is removed. */
  lemma DropPadding(before: string, kept: string, pad: nat, txt: string)
    requires RemoveSpaces(before) == RemoveSpaces(kept)
    ensures RemoveSpaces(before + (Spaces(pad) + txt)) == RemoveSpaces(kept + txt)
  {
    var sp := Spaces(pad);
    RemoveSpacesOfSpaces(sp);
    var tail := sp + txt;
    RemoveSpacesAppend(sp, txt);
    assert RemoveSpaces(tail) == RemoveSpaces(txt);
    RemoveSpacesAppend(before, tail);
    RemoveSpacesAppend(kept, txt);
  }

  /** A stream with no COMMENT and no STRING token keeps every token's text. */
  lemma {:induction false} KeptTextOfPlainStream(tokens: seq<Token>, n: nat)
    requires n <= |tokens|
    requires forall i :: 0 <= i < |tokens| ==> tokens[i].kind != Comment && tokens[i].kind != String
    ensures KeptText(tokens, n) == AllText(tokens[..n])
  {
    if n > 0 {
      KeptTextOfPlainStream(tokens, n - 1);
      assert tokens[..n] == tokens[..n - 1] + [tokens[n - 1]];
      AllTextAppend(tokens[..n - 1], tokens[n - 1]);
    }
  }

  /** The texts of all tokens, concatenated. */
  function AllText(tokens: seq<Token>): string {
    if tokens == [] then "" else tokens[0].text + AllText(tokens[1..])
  }

  lemma {:induction false} AllTextAppend(tokens: seq<Token>, t: Token)
    ensures AllText(tokens + [t]) == AllText(tokens) + t.text
  {
    if tokens != [] {
      assert (tokens + [t])[1..] == tokens[1..] + [t];
      AllTextAppend(tokens[1..], t);
    }
  }

  /** The output is written as a stream: the tokens up to k determine the output up to
      their last piece, and later tokens only append to it. */
  lemma {:induction false} StrippedPrefix(tokens: seq<Token>, k: nat, n: nat)
    requires k <= n <= |tokens|
    ensures Stripped(tokens[..k], k) == Stripped(tokens, k)
    ensures Stripped(tokens, k) <= Stripped(tokens, n)
    decreases n
  {
    if n > k {
      StrippedPrefix(tokens, k, n - 1);
      assert Stripped(tokens, n) == Stripped(tokens, n - 1) + Piece(tokens, n - 1);
    } else {
      SamePrefixSameOutput(tokens, k, k);
    }
  }

  lemma {:induction false} SamePrefixSameOutput(tokens: seq<Token>, k: nat, m: nat)
    requires m <= k <= |tokens|
    ensures Stripped(tokens[..k], m) == Stripped(tokens, m)
  {
    if m > 0 {
      SamePrefixSameOutput(tokens, k, m - 1);
      assert tokens[..k][m - 1] == tokens[m - 1];
      assert m - 1 > 0 ==> tokens[..k][m - 2] == tokens[m - 2];
      assert Piece(tokens[..k], m - 1) == Piece(tokens, m - 1);
    }
  }

  /** The token stream of `"""doc"""` followed by `x = 1` on the next line. */
  function ModuleDocstringExample(): seq<Token> {
    [ Token(String, "\"\"\"doc\"\"\"", Position(1, 0), Position(1, 9), "\"\"\"doc\"\"\"\n"),
      Token(Newline, "\n", Position(1, 9), Position(1, 10), "\"\"\"doc\"\"\"\n"),
      Token(Name, "x", Position(2, 0), Position(2, 1), "x = 1\n"),
      Token(Op, "=", Position(2, 2), Position(2, 3), "x = 1\n"),
      Token(Number, "1", Position(2, 4), Position(2, 5), "x = 1\n"),
      Token(Newline, "\n", Position(2, 5), Position(2, 6), "x = 1\n"),
      Token(EndMarker, "", Position(3, 0), Position(3, 0), "") ]
  }

  lemma ExamplePieces()
    ensures var t := ModuleDocstringExample();
      && Piece(t, 0) == "" && Piece(t, 1) == "\n" && Piece(t, 2) == "x"
      && Piece(t, 3) == " =" && Piece(t, 4) == " 1" && Piece(t, 5) == "\n" && Piece(t, 6) == ""
  {
    var t := ModuleDocstringExample();
    assert Padding(t, 3) == 1 && Padding(t, 4) == 1;
  }

  /** The module docstring is dropped and the statement after it keeps its layout. */
  lemma ModuleDocstringDropped()
    ensures Stripped(ModuleDocstringExample(), 7) == "\nx = 1\n"
  {
    ExamplePieces();
  }
}
