/** Tokens produced by the lexer and consumed by the parser (include/token.h). */
module Tokens {

  datatype TokenType =
    | NUMBER | STRING | IDENTIFIER
    | PLUS | MINUS | STAR | SLASH | ASSIGN
    | LPAREN | RPAREN | SEMICOLON
    | COUT | CIN | END | UNKNOWN

  /** A token: its kind, its text and the line it was read on. */
  datatype Token = Token(kind: TokenType, value: string, line: int)
}
