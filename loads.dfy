/** `loads(src)`: the whole pipeline, lexing the text and parsing the
    tokens as a document root. */
module Loads {
  import opened Errors
  import opened Lexer
  import opened Parser

  /** What `loads(src)` returns: the value of the document root. The tokens
      left after the root are not looked at. */
  function LoadsSpec(src: string, dedent: string -> string): Result<Value>
  {
    match LexSpec(src, dedent)
    case Err(e) => Err(e)
    case Ok(tokens) =>
      match Parse(tokens, true)
      case Err(e) => Err(e)
      case Ok(Parsed(v, _)) => Ok(v)
  }

  /** `loads(src)` */
  method Loads(src: string, dedent: string -> string) returns (r: Result<Value>)
    ensures r == LoadsSpec(src, dedent)
  {
    var tokens :- Lex(src, dedent);
    assert tokens[0..] == tokens;
    var parsed :- ParseAt(tokens, 0, true);
    r := Ok(parsed.0);
  }

  /** A document is a map or a list, except that a quoted `{` or `[` in
      front of the text is taken as the whole document, a string. */
  lemma LoadsShape(src: string, dedent: string -> string)
    ensures var r := LoadsSpec(src, dedent);
      r.Ok? ==> r.value.Map? || r.value.List? || r.value == Scalar(MapOpen) || r.value == Scalar(ListOpen)
  {
    var lexed := LexSpec(src, dedent);
    if lexed.Ok? {
      RootShape(lexed.value);
    }
  }
}
