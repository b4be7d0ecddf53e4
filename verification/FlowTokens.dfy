/** Source positions, diagnostics and tokens of the Flow language. */
module FlowTokens {

  datatype Span = Span(offset: nat, len: nat, line: nat, col: nat) {
    function End(): nat {
      offset + len
    }
  }

  datatype Code = CfgSyntax | CfgTypeMismatch

  datatype Diag = Diag(code: Code, message: string, span: Span)

  datatype Result<+T> = Ok(value: T) | Err(diag: Diag)

  datatype TokenKind =
    | LBrace | RBrace | LParen | RParen | LBracket | RBracket
    | Comma | Equals | Arrow
    | Sep
    | Str(text: string)
    | Env(text: string)
    | Atom(text: string)
    | Eof

  datatype Token = Token(kind: TokenKind, span: Span)
}
