/** Tokens as the preprocessor and the parser see them.

    A token keeps its class, its spelling and the part of its location that the preprocessor
    reads or rewrites.  Columns are not modelled. */
module Tokens {

  datatype TokenKlass =
    // Special classes
    | Invalid | Unknown | Eof | Comment
    | Hash | HashHash | SystemHeaderName | UserHeaderName
    | DefinedYes | DefinedNo
    | NumberLiteral | Identifier
    // Keywords: the ones an expression parser looks at, the other builtin type names, the rest
    | K_true | K_false | K_struct | K_void | K_builtinType(tag: nat) | K_keyword(tag: nat)
    // Punctuation
    | LShift | RShift | Increment | Decrement
    | LessEq | GreaterEq | Equal | NotEqual
    | And | Or | Xor
    | MulAssign | DivAssign | AddAssign | ModAssign | LShiftAssign | RShiftAssign
    | AndAssign | XorAssign | OrAssign | SubAssign
    | LParen | RParen | LBracket | RBracket | LBrace | RBrace
    | Dot | Comma | Colon | Assign | Semicolon
    | Bang | Dash | Tilde | Plus | Star | Slash | Percent
    | LAngle | RAngle | VerticalBar | Caret | Ampersand | Question

  datatype Token = Token(
    klass: TokenKlass,
    text: string,
    file: nat,
    line: nat,
    isFirstTokenOfLine: bool,
    hasLeadingWhitespace: bool)

  datatype Option<+T> = None | Some(value: T)
}
