/** The usu tokenizer: a cursor-driven scanner that turns source text into a
    list of tagged tokens. */
module Lexer {
  import opened Errors

  // ---------------------------------------------------------------------
  // Tokens
  // ---------------------------------------------------------------------

  /** Token kind. */
  datatype TK = Bool | Str | Int | Float | Null | Syntax | Key

  /** What Python stores in `Token.value`: a str, a bool, an int, a float
      (kept as its source text) or None. */
  datatype Atom =
    | StrVal(s: string)
    | BoolVal(b: bool)
    | IntVal(n: int)
    | FloatVal(text: string)
    | NoneVal

  datatype Token = Token(kind: TK, value: Atom)

  datatype Option<T> = None | Some(value: T)

  /** The lexer's flag set: whether INLINE and whether FOLD is in it. */
  datatype Flags = Flags(inline: bool, fold: bool)

  const MapOpen: Atom := StrVal("{")
  const MapClose: Atom := StrVal("}")
  const ListOpen: Atom := StrVal("[")
  const ListClose: Atom := StrVal("]")

  /** A structural token for one of the four delimiters. */
  function Syn(c: char): Token
  {
    Token(Syntax, StrVal([c]))
  }

  // ---------------------------------------------------------------------
  // Character classes
  // ---------------------------------------------------------------------

  /** USU_SYNTAX: the four structural delimiters. */
  const SyntaxChars: set<char> := {'{', '}', '[', ']'}
  /** USU_NEWLINE */
  const Newlines: set<char> := {'\r', '\n'}
  /** QUOTES */
  const Quotes: set<char> := {'"', '\'', '`'}
  /** USU_WS: a blank, a tab and the USU_NEWLINE characters. */
  const WhiteSpace: set<char> := {' ', '\t', '\r', '\n'}
  /** DIGITS: the ASCII digits. */
  predicate IsDigit(c: char)
  {
    '0' <= c <= '9'
  }
  /** TRUE and FALSE */
  const TrueWords: set<string> := {"True", "true"}
  const FalseWords: set<string> := {"False", "false"}
  /** The characters that end a run of values and are scanned again by the
      main loop: the USU_SYNTAX delimiters, `:` and `#`. */
  const Breakers: set<char> := {'{', '}', '[', ']', ':', '#'}
  /** What ends a number: USU_WS, `]` or `}`. */
  const NumberEnds: set<char> := {' ', '\t', '\r', '\n', ']', '}'}
  /** What ends a key name: USU_WS or `}`. */
  const KeyEnds: set<char> := {' ', '\t', '\r', '\n', '}'}
  /** The character classes are written out, and are the unions the
      source builds them from. */
  lemma CharClassesCompose(flags: Flags)
    ensures WhiteSpace == {' ', '\t'} + Newlines
    ensures Breakers == SyntaxChars + {':', '#'}
    ensures NumberEnds == WhiteSpace + {']', '}'}
    ensures KeyEnds == WhiteSpace + {'}'}
    ensures EndChars(flags, true) == Breakers + Newlines + (if flags.fold || flags.inline then WhiteSpace else {})
  {
  }

  /** The characters Python's `str.strip()` and `str.lstrip()` remove when
      called without an argument (the characters `str.isspace` accepts). */
  const PyWhitespace: set<char> :=
    {' ', '\t', '\n', '\r', '\U{0b}', '\U{0c}', '\U{1c}', '\U{1d}', '\U{1e}', '\U{1f}',
     '\U{85}', '\U{a0}', '\U{1680}', '\U{2000}', '\U{2001}', '\U{2002}', '\U{2003}',
     '\U{2004}', '\U{2005}', '\U{2006}', '\U{2007}', '\U{2008}', '\U{2009}', '\U{200a}',
     '\U{2028}', '\U{2029}', '\U{202f}', '\U{205f}', '\U{3000}'}

  // ---------------------------------------------------------------------
  // String helpers standing for Python's str methods
  // ---------------------------------------------------------------------

  /** `s.lstrip(cs)` */
  function LStrip(s: string, cs: set<char>): (r: string)
    decreases |s|
    ensures |r| <= |s|
  {
    if s != [] && s[0] in cs then LStrip(s[1..], cs) else s
  }

  /** `lstrip` removes exactly the leading run of characters from `cs`. */
  lemma {:induction false} LStripSpec(s: string, cs: set<char>)
    ensures var r := LStrip(s, cs);
      && r == s[|s| - |r|..]
      && (r == [] || r[0] !in cs)
      && forall i :: 0 <= i < |s| - |r| ==> s[i] in cs
    decreases |s|
  {
    if s != [] && s[0] in cs {
      LStripSpec(s[1..], cs);
    }
  }

  /** `s.rstrip(cs)` */
  function RStrip(s: string, cs: set<char>): (r: string)
    decreases |s|
    ensures |r| <= |s|
  {
    if s != [] && s[|s| - 1] in cs then RStrip(s[..|s| - 1], cs) else s
  }

  /** `rstrip` removes exactly the trailing run of characters from `cs`. */
  lemma {:induction false} RStripSpec(s: string, cs: set<char>)
    ensures var r := RStrip(s, cs);
      && r == s[..|r|]
      && (r == [] || r[|r| - 1] !in cs)
      && forall i :: |r| <= i < |s| ==> s[i] in cs
    decreases |s|
  {
    if s != [] && s[|s| - 1] in cs {
      RStripSpec(s[..|s| - 1], cs);
      assert s[..|s| - 1][..|RStrip(s, cs)|] == s[..|RStrip(s, cs)|];
    }
  }

  /** `s.strip(cs)` */
  function Strip(s: string, cs: set<char>): string
  {
    RStrip(LStrip(s, cs), cs)
  }

  /** `strip` leaves a piece of the text that neither starts nor ends with
      a character from `cs`. */
  lemma StripSpec(s: string, cs: set<char>)
    ensures var r := Strip(s, cs);
      && (r == [] || (r[0] !in cs && r[|r| - 1] !in cs))
      && forall c :: c in r ==> c in s
  {
    var t := LStrip(s, cs);
    var r := RStrip(t, cs);
    LStripSpec(s, cs);
    RStripSpec(t, cs);
    forall c | c in r
      ensures c in s
    {
      var i :| 0 <= i < |r| && r[i] == c;
      assert r[i] == t[i] == s[|s| - |t| + i];
    }
  }

  /** `s.replace(a, b)` for single characters. */
  function ReplaceChar(s: string, a: char, b: char): (r: string)
    decreases |s|
    ensures |r| == |s|
  {
    if s == [] then [] else [if s[0] == a then b else s[0]] + ReplaceChar(s[1..], a, b)
  }

  /** `replace` changes every `a` to `b` and nothing else. */
  lemma {:induction false} ReplaceCharSpec(s: string, a: char, b: char)
    ensures forall i :: 0 <= i < |s| ==> ReplaceChar(s, a, b)[i] == (if s[i] == a then b else s[i])
    decreases |s|
  {
    if s != [] {
      ReplaceCharSpec(s[1..], a, b);
    }
  }

  // ---------------------------------------------------------------------
  // skip_chars
  // ---------------------------------------------------------------------

  /** Where `skip_chars` stops: the first position at or after `pos` whose
      character is not in `chars`, or the end of the text. */
  function SkipEnd(src: string, pos: nat, chars: set<char>): (p: nat)
    decreases |src| - pos
    ensures pos <= p
    ensures pos <= |src| ==> p <= |src|
    ensures pos > |src| ==> p == pos
  {
    if pos < |src| && src[pos] in chars then SkipEnd(src, pos + 1, chars) else pos
  }

  /** `skip_chars` passes over characters from `chars` only, and stops on
      the first character that is not one of them. */
  lemma {:induction false} SkipEndSpec(src: string, pos: nat, chars: set<char>)
    ensures var p := SkipEnd(src, pos, chars);
      && (forall i :: pos <= i < p ==> i < |src| && src[i] in chars)
      && (p < |src| ==> src[p] !in chars)
    decreases |src| - pos
  {
    if pos < |src| && src[pos] in chars {
      SkipEndSpec(src, pos + 1, chars);
    }
  }

  /** `skip_chars(src, pos, chars)` */
  method SkipChars(src: string, pos: nat, chars: set<char>) returns (p: nat)
    ensures p == SkipEnd(src, pos, chars)
  {
    p := pos;
    while p < |src| && src[p] in chars
      invariant pos <= p
      invariant SkipEnd(src, p, chars) == SkipEnd(src, pos, chars)
      decreases |src| - p
    {
      p := p + 1;
    }
  }

  /** The first position at or after `pos` whose character is in `stops`,
      or the end of the text: where a `for c in src[pos:]` loop that breaks
      on those characters stops. */
  function StopAt(src: string, pos: nat, stops: set<char>): (p: nat)
    requires pos <= |src|
    decreases |src| - pos
    ensures pos <= p <= |src|
  {
    if pos < |src| && src[pos] !in stops then StopAt(src, pos + 1, stops) else pos
  }

  /** The scan passes over no stop character, and ends on one unless it
      reaches the end of the text. */
  lemma {:induction false} StopAtSpec(src: string, pos: nat, stops: set<char>)
    requires pos <= |src|
    ensures var p := StopAt(src, pos, stops);
      && (forall i :: pos <= i < p ==> src[i] !in stops)
      && (p < |src| ==> src[p] in stops)
    decreases |src| - pos
  {
    if pos < |src| && src[pos] !in stops {
      StopAtSpec(src, pos + 1, stops);
    }
  }

  /** A position where no stop character comes before and a stop
      character (or the end) is reached is the one `StopAt` finds. */
  lemma {:induction false} StopAtIs(src: string, pos: nat, p: nat, stops: set<char>)
    requires pos <= p <= |src|
    requires forall i :: pos <= i < p ==> src[i] !in stops
    requires p < |src| ==> src[p] in stops
    ensures StopAt(src, pos, stops) == p
    decreases p - pos
  {
    if pos < p {
      StopAtIs(src, pos + 1, p, stops);
    }
  }

  // ---------------------------------------------------------------------
  // skip_comment
  // ---------------------------------------------------------------------

  /** Whether `)#` starts at `pos`. */
  predicate ClosesBlock(src: string, pos: nat)
  {
    pos + 2 <= |src| && src[pos] == ')' && src[pos + 1] == '#'
  }

  /** Python's slice `src[i:j]`, which never fails: both ends are clamped
      to the length of the text. */
  function Slice(src: string, i: nat, j: nat): (r: string)
    ensures |r| <= 2 || j - i > 2
    ensures i >= |src| ==> r == ""
    ensures i <= j <= |src| ==> r == src[i..j]
  {
    var hi := if j < |src| then j else |src|;
    var lo := if i < hi then i else hi;
    src[lo..hi]
  }

  /** The guard of the block-comment loop as written:
      `src[pos : pos + 2] != ")#"`. */
  predicate BlockScanGoesOn(src: string, pos: nat)
  {
    Slice(src, pos, pos + 2) != ")#"
  }

  /** As written, the block-comment loop cannot leave once no `)#` follows:
      the slice never raises IndexError, and past the end it is the empty
      string, so the guard holds at every later position. */
  lemma BlockScanNeverEnds(src: string, pos: nat)
    requires forall i :: pos <= i < |src| ==> !ClosesBlock(src, i)
    ensures forall k :: pos <= k ==> BlockScanGoesOn(src, k)
  {
    forall k | pos <= k
      ensures BlockScanGoesOn(src, k)
    {
      if k + 2 <= |src| {
        assert Slice(src, k, k + 2) == src[k..k + 2];
        assert !ClosesBlock(src, k);
        if Slice(src, k, k + 2) == ")#" {
          assert src[k] == Slice(src, k, k + 2)[0];
          assert src[k + 1] == Slice(src, k, k + 2)[1];
        }
      } else {
        assert |Slice(src, k, k + 2)| < 2;
      }
    }
  }

  /** The shortest case: the document `#(`. */
  lemma UnterminatedBlockCommentHangs()
    ensures forall k :: 0 <= k ==> BlockScanGoesOn("#(", k)
  {
    BlockScanNeverEnds("#(", 0);
  }

  /** The block-comment scan with the end of the text as a second exit:
      the first `)#` at or after `pos`, or the end of the text. */
  function BlockEnd(src: string, pos: nat): (p: nat)
    requires pos <= |src|
    decreases |src| - pos
    ensures pos <= p <= |src|
  {
    if pos == |src| || ClosesBlock(src, pos) then pos else BlockEnd(src, pos + 1)
  }

  /** The corrected scan ends on the first `)#`, or at the end of the text
      when there is none. */
  lemma {:induction false} BlockEndSpec(src: string, pos: nat)
    requires pos <= |src|
    ensures var p := BlockEnd(src, pos);
      && (p < |src| ==> ClosesBlock(src, p))
      && (forall i :: pos <= i < p ==> !ClosesBlock(src, i))
    decreases |src| - pos
  {
    if !(pos == |src| || ClosesBlock(src, pos)) {
      BlockEndSpec(src, pos + 1);
    }
  }

  /** Where `skip_comment` leaves the cursor for the `#` at `pos`: on the
      newline that ends the comment's line, or at the end of the text. A
      `#(` comment first runs to its `)#`, and the rest of that line is
      skipped too. A `#` that is the last character stays where it is. */
  function CommentEnd(src: string, pos: nat): (p: nat)
    requires pos < |src|
    ensures pos <= p <= |src|
  {
    if pos + 1 >= |src| then pos
    else if src[pos + 1] == '(' then StopAt(src, BlockEnd(src, pos), Newlines)
    else StopAt(src, pos, Newlines)
  }

  /** A comment runs to a line end or to the end of the text; a `#` that
      is the last character stays where it is. A `#` line comment stops on
      the first line end after the `#`. A `#(` comment first runs to its
      first `)#` (or to the end of the text when there is none), and then
      stops on the first line end from there on. */
  lemma CommentEndSpec(src: string, pos: nat)
    requires pos < |src|
    ensures var p := CommentEnd(src, pos);
      && (pos + 1 == |src| ==> p == pos)
      && (pos + 1 < |src| ==> p == |src| || src[p] in Newlines)
      && (pos + 1 < |src| && src[pos + 1] != '(' ==> forall i :: pos <= i < p ==> src[i] !in Newlines)
      && (pos + 1 < |src| && src[pos + 1] == '(' ==>
            var b := BlockEnd(src, pos);
            && b <= p
            && (forall i :: pos <= i < b ==> !ClosesBlock(src, i))
            && (b == |src| || ClosesBlock(src, b))
            && (forall i :: b <= i < p ==> src[i] !in Newlines))
  {
    if pos + 1 < |src| {
      if src[pos + 1] == '(' {
        BlockEndSpec(src, pos);
        StopAtSpec(src, BlockEnd(src, pos), Newlines);
      } else {
        StopAtSpec(src, pos, Newlines);
      }
    }
  }

  /** `skip_comment(src, pos)`, with the block-comment loop stopping at the
      end of the text. */
  method SkipComment(src: string, pos: nat) returns (p: nat)
    requires pos < |src|
    ensures p == CommentEnd(src, pos)
  {
    p := pos;
    if p + 1 >= |src| {
      return;
    }
    if src[p + 1] == '(' {
      while p < |src| && !ClosesBlock(src, p)
        invariant pos <= p <= |src|
        invariant BlockEnd(src, p) == BlockEnd(src, pos)
        decreases |src| - p
      {
        p := p + 1;
      }
    }
    ghost var lineStart := p;
    while p < |src| && src[p] !in Newlines
      invariant lineStart <= p <= |src|
      invariant StopAt(src, p, Newlines) == StopAt(src, lineStart, Newlines)
      decreases |src| - p
    {
      p := p + 1;
    }
  }

  // ---------------------------------------------------------------------
  // lex_str_bool_null
  // ---------------------------------------------------------------------

  /** `lex_str_bool_null(string)`: the spellings of true and false become
      booleans, `null` becomes the null token, and every other text stays a
      string token holding exactly that text. */
  function LexStrBoolNull(s: string): (t: Token)
    ensures t.kind == Str ==> t.value == StrVal(s)
    ensures t.kind != Str ==> s in TrueWords || s in FalseWords || s == "null"
  {
    if s in TrueWords then Token(Bool, BoolVal(true))
    else if s in FalseWords then Token(Bool, BoolVal(false))
    else if s == "null" then Token(Null, NoneVal)
    else Token(Str, StrVal(s))
  }

  /** The five words and what they become; any other text is a string. */
  lemma LexStrBoolNullSpec(s: string)
    ensures var t := LexStrBoolNull(s);
      && (s == "True" || s == "true" <==> t == Token(Bool, BoolVal(true)))
      && (s == "False" || s == "false" <==> t == Token(Bool, BoolVal(false)))
      && (s == "null" <==> t == Token(Null, NoneVal))
      && (s !in {"True", "true", "False", "false", "null"} <==> t == Token(Str, StrVal(s)))
  {
  }

  // ---------------------------------------------------------------------
  // lex_quoted_str
  // ---------------------------------------------------------------------

  /** The text of a quoted literal whose first character after the opening
      quote is at `pos`, and the position of the closing `quote`. A
      backslash takes the next character literally, whatever it is; the
      other quote characters are ordinary text. */
  function QuotedBody(src: string, pos: nat, quote: char): (r: Result<(string, nat)>)
    decreases |src| - pos
    ensures r.Ok? ==> pos <= r.value.1 < |src| && src[r.value.1] == quote
  {
    if pos >= |src| then Err(UnterminatedQuote)
    else if src[pos] == quote then Ok(("", pos))
    else if src[pos] == '\\' then
      if pos + 1 >= |src| then Err(IndexOutOfRange)
      else PrependText([src[pos + 1]], QuotedBody(src, pos + 2, quote))
    else PrependText([src[pos]], QuotedBody(src, pos + 1, quote))
  }

  /** Puts `text` in front of the text of a scanned literal. */
  function PrependText(text: string, r: Result<(string, nat)>): (r': Result<(string, nat)>)
    ensures text == [] ==> r' == r
  {
    match r
    case Ok((body, close)) => assert [] + body == body; Ok((text + body, close))
    case Err(e) => Err(e)
  }

  lemma PrependTwice(a: string, b: string, r: Result<(string, nat)>)
    ensures PrependText(a, PrependText(b, r)) == PrependText(a + b, r)
  {
    if r.Ok? {
      assert a + (b + r.value.0) == (a + b) + r.value.0;
    }
  }

  /** What `lex_quoted_str(pos, src, end_char)` returns: the position of the
      closing quote and a string token whose text has its leading newlines
      removed and is then dedented. */
  function QuotedToken(src: string, pos: nat, endChar: char, dedent: string -> string): (r: Result<(nat, Token)>)
    ensures r.Ok? ==> pos < r.value.0 < |src| && src[r.value.0] == endChar
    ensures r.Ok? ==> r.value.1.kind == Str && r.value.1.value.StrVal?
  {
    match QuotedBody(src, pos + 1, endChar)
    case Err(e) => Err(e)
    case Ok((body, close)) => Ok((close, Token(Str, StrVal(dedent(LStrip(body, {'\n'}))))))
  }

  /** `lex_quoted_str(pos, src, end_char)` */
  method LexQuotedStr(src: string, pos: nat, endChar: char, dedent: string -> string) returns (r: Result<(nat, Token)>)
    ensures r == QuotedToken(src, pos, endChar, dedent)
  {
    var text := "";
    var p := pos + 1;
    while true
      invariant pos + 1 <= p
      invariant QuotedBody(src, pos + 1, endChar) == PrependText(text, QuotedBody(src, p, endChar))
      decreases |src| + 1 - p
    {
      if p >= |src| {
        return Err(UnterminatedQuote);
      }
      var c := src[p];
      if c == endChar {
        assert text + "" == text;
        return Ok((p, Token(Str, StrVal(dedent(LStrip(text, {'\n'}))))));
      }
      if c == '\\' {
        p := p + 1;
        if p >= |src| {
          return Err(IndexOutOfRange);
        }
        c := src[p];
      }
      PrependTwice(text, [c], QuotedBody(src, p + 1, endChar));
      text := text + [c];
      p := p + 1;
    }
  }

  /** Between the quotes, text without backslashes or the closing quote is
      taken exactly as written, other quote characters included. */
  lemma {:induction false} QuotedPlainText(src: string, pos: nat, quote: char, close: nat)
    requires pos <= close < |src| && src[close] == quote
    requires forall i :: pos <= i < close ==> src[i] != quote && src[i] != '\\'
    ensures QuotedBody(src, pos, quote) == Ok((src[pos..close], close))
    decreases close - pos
  {
    if pos < close {
      QuotedPlainText(src, pos + 1, quote, close);
      assert [src[pos]] + src[pos + 1..close] == src[pos..close];
    } else {
      assert src[pos..close] == "";
    }
  }

  /** With no closing quote left the literal is an error: the missing-quote
      error, or the index error of a backslash that takes the end of the
      text, and the missing-quote error when no backslash is left. */
  lemma {:induction false} QuotedUnterminated(src: string, pos: nat, quote: char)
    requires forall i :: pos <= i < |src| ==> src[i] != quote
    ensures QuotedBody(src, pos, quote) == Err(UnterminatedQuote)
      || QuotedBody(src, pos, quote) == Err(IndexOutOfRange)
    ensures (forall i :: pos <= i < |src| ==> src[i] != '\\') ==>
      QuotedBody(src, pos, quote) == Err(UnterminatedQuote)
    decreases |src| - pos
  {
    if pos < |src| {
      if src[pos] == '\\' {
        if pos + 1 < |src| {
          QuotedUnterminated(src, pos + 2, quote);
        }
      } else {
        QuotedUnterminated(src, pos + 1, quote);
      }
    }
  }

  /** The ways to write `text` between two `quote` characters: a backslash
      in front of every backslash, every `quote` and every character of
      `extra`, the other characters (other quote characters included) as
      they are. A backslash before an ordinary character such as `n` is
      allowed, and reads as that character. */
  function Escape(text: string, quote: char, extra: set<char>): (r: string)
    ensures |text| <= |r| <= 2 * |text|
  {
    if text == [] then [] else EscapeChar(text[0], quote, extra) + Escape(text[1..], quote, extra)
  }

  /** One character of `Escape`. */
  function EscapeChar(c: char, quote: char, extra: set<char>): (r: string)
    ensures 1 <= |r| <= 2 && r[|r| - 1] == c
    ensures |r| == 2 <==> (c == quote || c == '\\' || c in extra)
  {
    if c == quote || c == '\\' || c in extra then ['\\', c] else [c]
  }

  /** Moves the end of a scanned literal `n` characters on. */
  function ShiftClose(r: Result<(string, nat)>, n: nat): (r': Result<(string, nat)>)
    ensures r'.Ok? <==> r.Ok?
    ensures r.Ok? ==> r'.value == (r.value.0, r.value.1 + n)
    ensures r.Err? ==> r' == r
  {
    match r
    case Ok((body, close)) => Ok((body, close + n))
    case Err(e) => Err(e)
  }

  /** The scan of a literal body does not look behind its start: after any
      text `a`, it reads what it reads in `b` alone, `|a|` characters on. */
  lemma {:induction false} ShiftBody(a: string, b: string, k: nat, quote: char)
    ensures QuotedBody(a + b, |a| + k, quote) == ShiftClose(QuotedBody(b, k, quote), |a|)
    decreases |b| - k
  {
    if k < |b| {
      assert (a + b)[|a| + k] == b[k];
      if b[k] == '\\' && k + 1 < |b| {
        assert (a + b)[|a| + k + 1] == b[k + 1];
        ShiftBody(a, b, k + 2, quote);
      } else if b[k] != quote && b[k] != '\\' {
        ShiftBody(a, b, k + 1, quote);
      }
    }
  }

  /** A body that starts with the escaped form of `c` reads `c` and carries
      on after it. */
  lemma EscapedCons(c: char, quote: char, extra: set<char>, tail: string)
    requires quote != '\\'
    ensures QuotedBody(EscapeChar(c, quote, extra) + tail, 0, quote)
      == PrependText([c], ShiftClose(QuotedBody(tail, 0, quote), |EscapeChar(c, quote, extra)|))
  {
    var head := EscapeChar(c, quote, extra);
    ShiftBody(head, tail, 0, quote);
    if c == quote || c == '\\' || c in extra {
      assert (head + tail)[0] == '\\' && (head + tail)[1] == c;
    } else {
      assert (head + tail)[0] == c;
    }
  }

  /** Every text written with `Escape` and closed by its quote reads back
      as that text, and the literal ends on that closing quote, whatever
      follows it. */
  lemma {:induction false} EscapedBody(text: string, quote: char, extra: set<char>, rest: string)
    requires quote != '\\'
    ensures QuotedBody(Escape(text, quote, extra) + [quote] + rest, 0, quote) == Ok((text, |Escape(text, quote, extra)|))
    decreases |text|
  {
    if text == [] {
      assert (Escape(text, quote, extra) + [quote] + rest)[0] == quote;
    } else {
      var tail := Escape(text[1..], quote, extra) + [quote] + rest;
      assert Escape(text, quote, extra) + [quote] + rest == EscapeChar(text[0], quote, extra) + tail;
      EscapedBody(text[1..], quote, extra, rest);
      EscapedCons(text[0], quote, extra, tail);
      assert [text[0]] + text[1..] == text;
    }
  }

  /** Every text written with `Escape` but not closed is the missing-quote
      error: its last character is never a backslash that would take the
      end of the text. */
  lemma {:induction false} EscapedUnterminated(text: string, quote: char, extra: set<char>)
    requires quote != '\\'
    ensures QuotedBody(Escape(text, quote, extra), 0, quote) == Err(UnterminatedQuote)
    decreases |text|
  {
    if text != [] {
      EscapedUnterminated(text[1..], quote, extra);
      EscapedCons(text[0], quote, extra, Escape(text[1..], quote, extra));
    }
  }

  /** `lex_quoted_str` reads back any text written between two quotes with
      `Escape`: the token holds that text (leading newlines removed, then
      dedented) and the literal ends on the closing quote. */
  lemma QuotedRoundTrip(text: string, quote: char, extra: set<char>, rest: string, dedent: string -> string)
    requires quote in Quotes
    ensures var src := [quote] + Escape(text, quote, extra) + [quote] + rest;
      QuotedToken(src, 0, quote, dedent)
        == Ok((|Escape(text, quote, extra)| + 1, Token(Str, StrVal(dedent(LStrip(text, {'\n'}))))))
  {
    var body := Escape(text, quote, extra) + [quote] + rest;
    assert [quote] + Escape(text, quote, extra) + [quote] + rest == [quote] + body;
    EscapedBody(text, quote, extra, rest);
    ShiftBody([quote], body, 0, quote);
  }

  /** A literal whose escaped text runs to the end of the input without its
      closing quote is the missing-quote error; an escaped closing quote,
      as in `"ab\"`, does not close it. */
  lemma QuotedMissingClose(text: string, quote: char, extra: set<char>, dedent: string -> string)
    requires quote in Quotes
    ensures QuotedToken([quote] + Escape(text, quote, extra), 0, quote, dedent) == Err(UnterminatedQuote)
  {
    EscapedUnterminated(text, quote, extra);
    ShiftBody([quote], Escape(text, quote, extra), 0, quote);
  }

  /** Every text written with `Escape` and followed by a lone backslash at
      the end of the input is the index error: that backslash has no
      character left to take. */
  lemma {:induction false} EscapedTrailingBackslash(text: string, quote: char, extra: set<char>)
    requires quote != '\\'
    ensures QuotedBody(Escape(text, quote, extra) + ['\\'], 0, quote) == Err(IndexOutOfRange)
    decreases |text|
  {
    if text == [] {
      assert Escape(text, quote, extra) + ['\\'] == ['\\'];
    } else {
      var tail := Escape(text[1..], quote, extra) + ['\\'];
      assert Escape(text, quote, extra) + ['\\'] == EscapeChar(text[0], quote, extra) + tail;
      EscapedTrailingBackslash(text[1..], quote, extra);
      EscapedCons(text[0], quote, extra, tail);
    }
  }

  /** A literal whose input ends on a backslash after escaped text is the
      index error of `c = src[pos]`, not the missing-quote error. */
  lemma QuotedTrailingBackslash(text: string, quote: char, extra: set<char>, dedent: string -> string)
    requires quote in Quotes
    ensures QuotedToken([quote] + Escape(text, quote, extra) + ['\\'], 0, quote, dedent) == Err(IndexOutOfRange)
  {
    var body := Escape(text, quote, extra) + ['\\'];
    assert [quote] + Escape(text, quote, extra) + ['\\'] == [quote] + body;
    EscapedTrailingBackslash(text, quote, extra);
    ShiftBody([quote], body, 0, quote);
  }

  /** A backslash before an ordinary character is no named escape: it takes
      that character as it is, so `"a\nb"` is the text `anb`. */
  lemma EscapedLetter(dedent: string -> string)
    ensures QuotedToken("\"a\\nb\"", 0, '"', dedent) == Ok((5, Token(Str, StrVal(dedent("anb")))))
  {
    var src := "\"a\\nb\"";
    assert QuotedBody(src, 5, '"') == Ok(("", 5));
    assert "b" + "" == "b";
    assert QuotedBody(src, 4, '"') == Ok(("b", 5));
    assert "n" + "b" == "nb";
    assert QuotedBody(src, 2, '"') == Ok(("nb", 5));
    assert "a" + "nb" == "anb";
    assert QuotedBody(src, 1, '"') == Ok(("anb", 5));
  }

  /** An escaped quote does not end the literal: `"a\"b"` is the text
      `a"b`. */
  lemma EscapedQuote(dedent: string -> string)
    ensures QuotedToken("\"a\\\"b\"", 0, '"', dedent) == Ok((5, Token(Str, StrVal(dedent("a\"b")))))
  {
    var src := "\"a\\\"b\"";
    assert QuotedBody(src, 5, '"') == Ok(("", 5));
    assert "b" + "" == "b";
    assert QuotedBody(src, 4, '"') == Ok(("b", 5));
    assert "\"" + "b" == "\"b";
    assert QuotedBody(src, 2, '"') == Ok(("\"b", 5));
    assert "a" + "\"b" == "a\"b";
    assert QuotedBody(src, 1, '"') == Ok(("a\"b", 5));
  }

  // ---------------------------------------------------------------------
  // lex_unquoted_str
  // ---------------------------------------------------------------------

  /** The characters that end an unquoted value: the breakers always, line
      ends inside a list, and any whitespace inside a list when the line is
      inline or folded. */
  function EndChars(flags: Flags, insideList: bool): (ends: set<char>)
  {
    if !insideList then Breakers
    else if flags.fold || flags.inline then {'{', '}', '[', ']', ':', '#', '\r', '\n', ' ', '\t'}
    else {'{', '}', '[', ']', ':', '#', '\r', '\n'}
  }

  /** The text `lex_unquoted_str` makes of the characters it consumed:
      trailing blanks removed (only spaces when the value starts a line),
      dedented, leading whitespace removed, and under FOLD every line end
      turned into a space and the ends trimmed again. */
  function CleanText(raw: string, preceding: char, fold: bool, dedent: string -> string): string
  {
    var trailing := if preceding == '\n' then {' '} else {' ', '\n', '\t'};
    var text := LStrip(dedent(RStrip(raw, trailing)), PyWhitespace);
    if fold then Strip(ReplaceChar(text, '\n', ' '), PyWhitespace) else text
  }

  /** An unquoted value never starts with whitespace; under FOLD it holds no
      line end and does not end with whitespace either. */
  lemma CleanTextSpec(raw: string, preceding: char, fold: bool, dedent: string -> string)
    ensures var t := CleanText(raw, preceding, fold, dedent);
      && (t == [] || t[0] !in PyWhitespace)
      && (fold ==> '\n' !in t && (t == [] || t[|t| - 1] !in PyWhitespace))
  {
    var trailing := if preceding == '\n' then {' '} else {' ', '\n', '\t'};
    var text := LStrip(dedent(RStrip(raw, trailing)), PyWhitespace);
    LStripSpec(dedent(RStrip(raw, trailing)), PyWhitespace);
    if fold {
      var folded := ReplaceChar(text, '\n', ' ');
      ReplaceCharSpec(text, '\n', ' ');
      StripSpec(folded, PyWhitespace);
      assert '\n' !in folded by {
        forall i | 0 <= i < |folded|
          ensures folded[i] != '\n'
        {
        }
      }
    }
  }

  /** Where the scan of an unquoted value stops: the first end character
      at or after `pos`, or the end of the text. */
  function UnquotedStop(src: string, pos: nat, flags: Flags, insideList: bool): (stop: nat)
    requires pos < |src| && src[pos] !in Breakers
    ensures pos <= stop <= |src|
  {
    StopAt(src, pos, EndChars(flags, insideList))
  }

  /** What `lex_unquoted_str(pos, src, flags, inside_list)` returns: the
      position of the last character it consumed (one before a breaker, so
      the caller scans the breaker again) and the cleaned-up text. */
  function UnquotedSpec(src: string, pos: nat, flags: Flags, insideList: bool, dedent: string -> string): (r: (nat, string))
    requires pos < |src| && src[pos] !in Breakers
    ensures pos <= r.0 <= |src|
  {
    var stop := UnquotedStop(src, pos, flags, insideList);
    // Python's src[pos - 1] is the last character when pos is 0
    var preceding := if pos == 0 then src[|src| - 1] else src[pos - 1];
    (if stop < |src| && src[stop] in Breakers then stop - 1 else stop,
     CleanText(src[pos..stop], preceding, flags.fold, dedent))
  }

  /** An unquoted value takes no end character into its text. It stops at
      the end of the text, on its first end character when that is not a
      breaker (which it consumes), or on the character just before its first
      end character when that is a breaker (which the caller reads next). */
  lemma UnquotedSpecStops(src: string, pos: nat, flags: Flags, insideList: bool, dedent: string -> string)
    requires pos < |src| && src[pos] !in Breakers
    ensures var (p, _) := UnquotedSpec(src, pos, flags, insideList, dedent);
      && (forall i :: pos <= i < p ==> src[i] !in EndChars(flags, insideList))
      && (p == |src| || (src[p] in EndChars(flags, insideList) && src[p] !in Breakers)
          || (p + 1 < |src| && src[p] !in EndChars(flags, insideList) && src[p + 1] in Breakers))
  {
    StopAtSpec(src, pos, EndChars(flags, insideList));
  }

  /** `lex_unquoted_str(pos, src, flags, inside_list)` */
  method LexUnquotedStr(src: string, pos: nat, flags: Flags, insideList: bool, dedent: string -> string)
    returns (p: nat, text: string)
    requires pos < |src| && src[pos] !in Breakers
    ensures (p, text) == UnquotedSpec(src, pos, flags, insideList, dedent)
  {
    var ends := EndChars(flags, insideList);
    var preceding := if pos == 0 then src[|src| - 1] else src[pos - 1];
    var raw := "";
    p := pos;
    while p < |src| && src[p] !in ends
      invariant pos <= p <= |src|
      invariant raw == src[pos..p]
      invariant forall i :: pos <= i < p ==> src[i] !in ends
      decreases |src| - p
    {
      raw := raw + [src[p]];
      p := p + 1;
    }
    StopAtIs(src, pos, p, ends);
    if p < |src| && src[p] in Breakers {
      p := p - 1;
    }
    text := CleanText(raw, preceding, flags.fold, dedent);
  }

  // ---------------------------------------------------------------------
  // lex_number
  // ---------------------------------------------------------------------

  /** The value of a run of ASCII digits with single underscores between
      them, as Python's `int()` reads it, starting at `d[i]` with `acc` the
      value of the digits before; `None` when `d[i..]` is not such a run. */
  function DigitRun(d: string, i: nat, acc: nat): Option<nat>
    decreases |d| - i
  {
    if i >= |d| || !IsDigit(d[i]) then None
    else
      var acc' := acc * 10 + DigitValue(d[i]);
      if i + 1 == |d| then Some(acc')
      else if d[i + 1] == '_' then DigitRun(d, i + 2, acc')
      else DigitRun(d, i + 1, acc')
  }

  function DigitValue(c: char): nat
    requires IsDigit(c)
  {
    (c as int) - ('0' as int)
  }

  /** `int(text)` for a text that starts with a digit or `-`: an optional
      minus sign, then a run of digits. */
  function ParseInt(text: string): (r: Result<int>)
    ensures r.Err? ==> r.error == MalformedNumber(text)
    ensures r.Ok? && (|text| == 0 || text[0] != '-') ==> r.value >= 0
  {
    var negative := |text| > 0 && text[0] == '-';
    match DigitRun(text, if negative then 1 else 0, 0)
    case None => Err(MalformedNumber(text))
    case Some(n) => Ok(if negative then 0 - n else n)
  }

  /** Where `float()` stands while it reads a text with a point. */
  datatype FloatPart =
    | Lead                          // before anything but the sign
    | IntRun | IntSep               // in the digits before the point, after a digit or an underscore
    | Point(digitsBefore: bool)     // just after the point
    | FracRun | FracSep             // in the digits after the point
    | Exp | ExpSign                 // after `e` or `E`, after the exponent's sign
    | ExpRun | ExpSep               // in the digits of the exponent

  /** Whether `float()` accepts `t[i..]` from state `st`: digits on at
      least one side of the point, single underscores only between digits,
      and an optional exponent with an optional sign. */
  predicate FloatScan(t: string, i: nat, st: FloatPart)
    decreases |t| - i
  {
    if i >= |t| then st == Point(true) || st == FracRun || st == ExpRun
    else
      var c := t[i];
      var exp := c == 'e' || c == 'E';
      match st
      case Lead => if IsDigit(c) then FloatScan(t, i + 1, IntRun) else c == '.' && FloatScan(t, i + 1, Point(false))
      case IntRun =>
        if IsDigit(c) then FloatScan(t, i + 1, IntRun)
        else if c == '_' then FloatScan(t, i + 1, IntSep)
        else c == '.' && FloatScan(t, i + 1, Point(true))
      case IntSep => IsDigit(c) && FloatScan(t, i + 1, IntRun)
      case Point(before) =>
        if IsDigit(c) then FloatScan(t, i + 1, FracRun) else exp && before && FloatScan(t, i + 1, Exp)
      case FracRun =>
        if IsDigit(c) then FloatScan(t, i + 1, FracRun)
        else if c == '_' then FloatScan(t, i + 1, FracSep)
        else exp && FloatScan(t, i + 1, Exp)
      case FracSep => IsDigit(c) && FloatScan(t, i + 1, FracRun)
      case Exp =>
        if IsDigit(c) then FloatScan(t, i + 1, ExpRun) else (c == '-' || c == '+') && FloatScan(t, i + 1, ExpSign)
      case ExpSign => IsDigit(c) && FloatScan(t, i + 1, ExpRun)
      case ExpRun =>
        if IsDigit(c) then FloatScan(t, i + 1, ExpRun) else c == '_' && FloatScan(t, i + 1, ExpSep)
      case ExpSep => IsDigit(c) && FloatScan(t, i + 1, ExpRun)
  }

  /** `float(text)` accepts a text that has a point: an optional sign, then
      what `FloatScan` accepts. */
  predicate FloatText(text: string)
  {
    FloatScan(text, if |text| > 0 && (text[0] == '-' || text[0] == '+') then 1 else 0, Lead)
  }

  /** The token `lex_number` makes of the text of a number: a float when
      the text has a point and an integer otherwise; a text neither
      `float()` nor `int()` accepts is an error. */
  function NumberToken(text: string): Result<Token>
  {
    if '.' in text then
      if FloatText(text) then Ok(Token(Float, FloatVal(text))) else Err(MalformedNumber(text))
    else
      match ParseInt(text)
      case Ok(n) => Ok(Token(Int, IntVal(n)))
      case Err(e) => Err(e)
  }

  /** A number with a point is a float kept as its text, one without is the
      integer `int()` reads from it, and a text neither accepts is a
      malformed number. */
  lemma NumberTokenSpec(text: string)
    ensures var r := NumberToken(text);
      && (r.Ok? ==> r.value.kind in {Int, Float} && (r.value.kind == Float <==> '.' in text))
      && (r.Ok? && r.value.kind == Float ==> r.value.value == FloatVal(text) && FloatText(text))
      && (r.Ok? && r.value.kind == Int ==> r.value.value.IntVal? && ParseInt(text) == Ok(r.value.value.n))
      && (r.Err? ==> r.error == MalformedNumber(text))
  {
  }

  /** What `lex_number(pos, src)` returns: the position of the last
      character of the number and its token. A number runs up to
      whitespace, `]` or `}`. */
  function NumberSpec(src: string, pos: nat): (r: Result<(nat, Token)>)
    requires pos < |src| && src[pos] !in NumberEnds
    ensures r.Ok? ==> pos <= r.value.0 <= |src|
  {
    var stop := StopAt(src, pos, NumberEnds);
    match NumberToken(src[pos..stop])
    case Ok(t) => Ok((if stop < |src| then stop - 1 else stop, t))
    case Err(e) => Err(e)
  }

  /** A number is read up to its first whitespace, `]` or `}` (or the end
      of the text), and `lex_number` returns the position of its last
      character with the token of the text read, or that text's error. */
  lemma NumberSpecStops(src: string, pos: nat)
    requires pos < |src| && src[pos] !in NumberEnds
    ensures var stop, r := StopAt(src, pos, NumberEnds), NumberSpec(src, pos);
      && pos < stop <= |src|
      && (forall i :: pos <= i < stop ==> src[i] !in NumberEnds)
      && (stop < |src| ==> src[stop] in NumberEnds)
      && (r.Ok? <==> NumberToken(src[pos..stop]).Ok?)
      && (r.Ok? ==> r.value == (if stop < |src| then stop - 1 else stop, NumberToken(src[pos..stop]).value))
      && (r.Err? ==> r.error == NumberToken(src[pos..stop]).error)
  {
    StopAtSpec(src, pos, NumberEnds);
  }

  /** `lex_number(pos, src)` */
  method LexNumber(src: string, pos: nat) returns (r: Result<(nat, Token)>)
    requires pos < |src| && src[pos] !in NumberEnds
    ensures r == NumberSpec(src, pos)
  {
    var num := "";
    var p := pos;
    while p < |src| && src[p] !in NumberEnds
      invariant pos <= p <= |src|
      invariant num == src[pos..p]
      invariant forall i :: pos <= i < p ==> src[i] !in NumberEnds
      decreases |src| - p
    {
      num := num + [src[p]];
      p := p + 1;
    }
    StopAtIs(src, pos, p, NumberEnds);
    if p < |src| {
      p := p - 1;
    }
    var token :- NumberToken(num);
    r := Ok((p, token));
  }

  /** The decimal text of a natural number. */
  function NatText(n: nat): (t: string)
    decreases n
    ensures |t| > 0 && forall i :: 0 <= i < |t| ==> IsDigit(t[i])
  {
    var d := ['0', '1', '2', '3', '4', '5', '6', '7', '8', '9'][n % 10];
    if n < 10 then [d] else NatText(n / 10) + [d]
  }

  /** The decimal text of an integer, with `-` in front when negative. */
  function IntText(n: int): string
  {
    if n < 0 then "-" + NatText(-n) else NatText(n)
  }

  /** Reading one more digit multiplies the value so far by ten. */
  lemma {:induction false} DigitRunAppend(a: string, c: char, i: nat, acc: nat, v: nat)
    requires i < |a| && IsDigit(c) && forall k :: 0 <= k < |a| ==> IsDigit(a[k])
    requires DigitRun(a, i, acc) == Some(v)
    ensures DigitRun(a + [c], i, acc) == Some(v * 10 + DigitValue(c))
    decreases |a| - i
  {
    var acc' := acc * 10 + DigitValue(a[i]);
    assert (a + [c])[i] == a[i];
    if i + 1 == |a| {
      assert (a + [c])[i + 1] == c;
    } else {
      assert (a + [c])[i + 1] == a[i + 1];
      DigitRunAppend(a, c, i + 1, acc', v);
    }
  }

  lemma {:induction false} NatTextValue(n: nat)
    ensures DigitRun(NatText(n), 0, 0) == Some(n)
    decreases n
  {
    if n >= 10 {
      var t := NatText(n / 10);
      NatTextValue(n / 10);
      DigitRunAppend(t, NatText(n)[|NatText(n)| - 1], 0, 0, n / 10);
      assert NatText(n) == t + [NatText(n)[|NatText(n)| - 1]];
    }
  }

  /** Shifting a text by one character in front shifts where its digits
      are read. */
  lemma {:induction false} DigitRunShift(c: char, d: string, i: nat, acc: nat)
    ensures DigitRun([c] + d, i + 1, acc) == DigitRun(d, i, acc)
    decreases |d| - i
  {
    if i < |d| && IsDigit(d[i]) {
      assert ([c] + d)[i + 1] == d[i];
      var acc' := acc * 10 + DigitValue(d[i]);
      if i + 1 < |d| {
        assert ([c] + d)[i + 2] == d[i + 1];
        if d[i + 1] == '_' {
          DigitRunShift(c, d, i + 2, acc');
        } else {
          DigitRunShift(c, d, i + 1, acc');
        }
      }
    }
  }

  /** `int()` reads back the decimal text of every integer. */
  lemma IntTextParses(n: int)
    ensures ParseInt(IntText(n)) == Ok(n)
    ensures forall i :: 0 <= i < |IntText(n)| ==> IntText(n)[i] !in NumberEnds && IntText(n)[i] != '.'
  {
    var m: nat := if n < 0 then -n else n;
    NatTextValue(m);
    if n < 0 {
      DigitRunShift('-', NatText(m), 0, 0);
    }
  }

  /** Every integer written in decimal and followed by whitespace lexes
      back to itself, and the number ends on its last digit. */
  lemma IntRoundTrip(n: int)
    ensures NumberSpec(IntText(n) + " ", 0) == Ok((|IntText(n)| - 1, Token(Int, IntVal(n))))
  {
    var t := IntText(n);
    var src := t + " ";
    IntTextParses(n);
    assert forall i :: 0 <= i < |t| ==> src[i] == t[i];
    assert src[|t|] == ' ';
    StopAtIs(src, 0, |t|, NumberEnds);
    assert src[0..|t|] == t;
    assert '.' !in t;
  }

  // ---------------------------------------------------------------------
  // lex_value
  // ---------------------------------------------------------------------

  /** `LOPEN in (t.value for t in tokens[-2:])`: one of the last two tokens
      has the value `[`, whatever its kind. */
  predicate InsideList(tokens: seq<Token>)
  {
    || (|tokens| >= 1 && tokens[|tokens| - 1].value == ListOpen)
    || (|tokens| >= 2 && tokens[|tokens| - 2].value == ListOpen)
  }

  /** One value read by `lex_value` at `p`, where a value starts: a quoted
      string, a number or an unquoted text. The position of its last
      character, and the tokens it adds: one, or none for an unquoted text
      that is empty once cleaned up. */
  function ValueItem(src: string, p: nat, flags: Flags, insideList: bool, dedent: string -> string): (r: Result<(nat, seq<Token>)>)
    requires p < |src| && src[p] !in Breakers
    ensures r.Ok? ==> p <= r.value.0 <= |src| && |r.value.1| <= 1
  {
    if src[p] in Quotes then
      match QuotedToken(src, p, src[p], dedent)
      case Err(e) => Err(e)
      case Ok((e, t)) => Ok((e, [t]))
    else if IsDigit(src[p]) || src[p] == '-' then
      match NumberSpec(src, p)
      case Err(e) => Err(e)
      case Ok((e, t)) => Ok((e, [t]))
    else
      var (e, text) := UnquotedSpec(src, p, flags, insideList, dedent);
      Ok((e, if text != "" then [LexStrBoolNull(text)] else []))
  }

  /** The `while True` loop of `lex_value` from `pos` on, given the tokens
      so far: the position of the last character it consumed, and the
      tokens with the values it read appended. */
  function ValueLoop(src: string, pos: nat, flags: Flags, insideList: bool, tokens: seq<Token>,
                     dedent: string -> string): (r: Result<(nat, seq<Token>)>)
    requires 0 < pos || (pos < |src| && src[pos] !in Breakers)
    decreases |src| - pos, 1
    ensures r.Ok? ==> pos <= r.value.0 + 1
    ensures r.Ok? && pos < |src| && src[pos] !in Breakers ==> pos <= r.value.0
  {
    var p := if insideList then SkipEnd(src, pos, WhiteSpace) else pos;
    if p >= |src| || src[p] in Breakers then Ok((p - 1, tokens))
    else ValueThen(src, p, flags, insideList, tokens, dedent)
  }

  /** A round of the `lex_value` loop that reads the value at `p`, and the
      rounds after it. */
  function ValueThen(src: string, p: nat, flags: Flags, insideList: bool, tokens: seq<Token>,
                     dedent: string -> string): (r: Result<(nat, seq<Token>)>)
    requires p < |src| && src[p] !in Breakers
    decreases |src| - p, 0
    ensures r.Ok? ==> p <= r.value.0
  {
    match ValueItem(src, p, flags, insideList, dedent)
    case Err(e) => Err(e)
    case Ok((e, ts)) => ValueLoop(src, e + 1, flags, insideList, tokens + ts, dedent)
  }

  /** One round of the `lex_value` loop that reads a value. */
  lemma ValueLoopStep(src: string, pos: nat, flags: Flags, insideList: bool, tokens: seq<Token>,
                      dedent: string -> string, p: nat, e: nat, ts: seq<Token>)
    requires 0 < pos || (pos < |src| && src[pos] !in Breakers)
    requires p == (if insideList then SkipEnd(src, pos, WhiteSpace) else pos)
    requires p < |src| && src[p] !in Breakers
    requires ValueItem(src, p, flags, insideList, dedent) == Ok((e, ts))
    ensures ValueLoop(src, e + 1, flags, insideList, tokens + ts, dedent) == ValueLoop(src, pos, flags, insideList, tokens, dedent)
  {
  }

  /** The round of the `lex_value` loop whose value fails. */
  lemma ValueLoopFail(src: string, pos: nat, flags: Flags, insideList: bool, tokens: seq<Token>,
                      dedent: string -> string, p: nat)
    requires 0 < pos || (pos < |src| && src[pos] !in Breakers)
    requires p == (if insideList then SkipEnd(src, pos, WhiteSpace) else pos)
    requires p < |src| && src[p] !in Breakers
    requires ValueItem(src, p, flags, insideList, dedent).Err?
    ensures ValueLoop(src, pos, flags, insideList, tokens, dedent).Err?
  {
  }

  /** The round of the `lex_value` loop that meets the end of the text or
      a breaker. */
  lemma ValueLoopStop(src: string, pos: nat, flags: Flags, insideList: bool, tokens: seq<Token>,
                      dedent: string -> string, p: nat)
    requires 0 < pos || (pos < |src| && src[pos] !in Breakers)
    requires p == (if insideList then SkipEnd(src, pos, WhiteSpace) else pos)
    requires p >= |src| || src[p] in Breakers
    ensures p > 0 && ValueLoop(src, pos, flags, insideList, tokens, dedent) == Ok((p - 1, tokens))
  {
  }

  /** The branch of the `lex_value` loop that reads the value starting at
      `p`: a quoted string, a number, or an unquoted text. */
  method LexItem(src: string, p: nat, flags: Flags, insideList: bool, dedent: string -> string)
    returns (r: Result<(nat, seq<Token>)>)
    requires p < |src| && src[p] !in Breakers
    ensures r == ValueItem(src, p, flags, insideList, dedent)
  {
    var c := src[p];
    if c in Quotes {
      var q :- LexQuotedStr(src, p, c, dedent);
      r := Ok((q.0, [q.1]));
    } else if IsDigit(c) || c == '-' {
      var n :- LexNumber(src, p);
      r := Ok((n.0, [n.1]));
    } else {
      var e, text := LexUnquotedStr(src, p, flags, insideList, dedent);
      if text != "" {
        r := Ok((e, [LexStrBoolNull(text)]));
      } else {
        r := Ok((e, []));
      }
    }
  }

  /** One round of the `lex_value` loop from `pos`: either the loop ends
      here with `r` as its result, or it reads one value and goes on from
      the position after it with the tokens in `r`. */
  method ValueRound(src: string, pos: nat, flags: Flags, insideList: bool, tokens: seq<Token>,
                    dedent: string -> string)
    returns (r: Result<(nat, seq<Token>)>, more: bool)
    requires 0 < pos || (pos < |src| && src[pos] !in Breakers)
    ensures !more ==> r == ValueLoop(src, pos, flags, insideList, tokens, dedent)
    ensures more ==> r.Ok? && pos <= r.value.0 <= |src|
    ensures more ==> ValueLoop(src, r.value.0 + 1, flags, insideList, r.value.1, dedent)
                     == ValueLoop(src, pos, flags, insideList, tokens, dedent)
  {
    var p := pos;
    if insideList {
      p := SkipChars(src, p, WhiteSpace);
    }
    if p >= |src| || src[p] in Breakers {
      ValueLoopStop(src, pos, flags, insideList, tokens, dedent, p);
      return Ok((p - 1, tokens)), false;
    }
    var item := LexItem(src, p, flags, insideList, dedent);
    if item.Err? {
      return Err(item.error), false;
    }
    var (e, ts) := item.value;
    ValueLoopStep(src, pos, flags, insideList, tokens, dedent, p, e, ts);
    return Ok((e, tokens + ts)), true;
  }

  /** `lex_value(pos, src, flags, tokens)` */
  method LexValue(src: string, pos: nat, flags: Flags, tokens: seq<Token>, dedent: string -> string)
    returns (r: Result<(nat, seq<Token>)>)
    requires pos < |src| && src[pos] !in Breakers
    ensures r == ValueLoop(src, pos, flags, InsideList(tokens), tokens, dedent)
  {
    var insideList := InsideList(tokens);
    var p := pos;
    var toks := tokens;
    ghost var spec := ValueLoop(src, pos, flags, insideList, tokens, dedent);
    while true
      invariant 0 < p || (p < |src| && src[p] !in Breakers)
      invariant p <= |src| + 1
      invariant ValueLoop(src, p, flags, insideList, toks, dedent) == spec
      decreases |src| + 1 - p
    {
      var more;
      r, more := ValueRound(src, p, flags, insideList, toks, dedent);
      if !more {
        return;
      }
      p, toks := r.value.0 + 1, r.value.1;
    }
  }

  // ---------------------------------------------------------------------
  // lex
  // ---------------------------------------------------------------------

  /** How the flags change on reading `c`: a line end clears INLINE, `>`
      sets FOLD, and a delimiter or `:` clears FOLD. */
  function StepFlags(flags: Flags, c: char): (f: Flags)
    ensures f.inline == (flags.inline && c !in Newlines)
    ensures f.fold == ((flags.fold || c == '>') && c !in SyntaxChars && c != ':')
  {
    var f := if c in Newlines then flags.(inline := false) else flags;
    var f' := if c == '>' then f.(fold := true) else f;
    if c in SyntaxChars || c == ':' then f'.(fold := false) else f'
  }

  /** What the `:` branch of `lex` reads for the colon at `pos`: the key
      name runs to the next whitespace or `}`. A key ended by whitespace is
      a key token holding its name; a key ended by `}` is a key token
      holding None followed by the `}` token, and its name is dropped. The
      result also gives the position of the character that ended the key.
      A key that runs to the end of the text is an index error. */
  function KeyTokens(src: string, pos: nat): (r: Result<(nat, seq<Token>)>)
    requires pos < |src|
    ensures r.Err? ==> r.error == IndexOutOfRange
    ensures r.Ok? ==> pos < r.value.0 < |src|
  {
    var stop := StopAt(src, pos + 1, KeyEnds);
    if stop >= |src| then Err(IndexOutOfRange)
    else if src[stop] != '}' then Ok((stop, [Token(Key, StrVal(src[pos + 1..stop]))]))
    else Ok((stop, [Token(Key, NoneVal), Syn('}')]))
  }

  /** A key fails exactly when no whitespace or `}` follows the colon. A key
      name holds no whitespace or `}`; a key ended by `}` yields a key with
      no name and the closing brace. */
  lemma KeyTokensSpec(src: string, pos: nat)
    requires pos < |src|
    ensures var r := KeyTokens(src, pos);
      && (r.Err? <==> forall i :: pos < i < |src| ==> src[i] !in KeyEnds)
      && (r.Ok? ==> src[r.value.0] in KeyEnds && forall c :: c in src[pos + 1..r.value.0] ==> c !in KeyEnds)
      && (r.Ok? && src[r.value.0] != '}' ==> r.value.1 == [Token(Key, StrVal(src[pos + 1..r.value.0]))])
      && (r.Ok? && src[r.value.0] == '}' ==> r.value.1 == [Token(Key, NoneVal), Syn('}')])
  {
    StopAtSpec(src, pos + 1, KeyEnds);
  }

  /** One round of the `while True` loop of `lex` on the character at
      `pos`: the position the next round starts from, the flags and the
      tokens so far. */
  function LexNext(src: string, pos: nat, flags: Flags, tokens: seq<Token>, dedent: string -> string)
    : (r: Result<(nat, Flags, seq<Token>)>)
    requires pos < |src|
    ensures r.Ok? ==> pos < r.value.0
  {
    var c := src[pos];
    var flags := StepFlags(flags, c);
    if c in Newlines || c == '>' then Ok((pos + 1, flags, tokens))
    else if c == '{' || c == '[' then
      Ok((SkipEnd(src, pos + 1, {' ', '\t'}), flags.(inline := true), tokens + [Syn(c)]))
    else if c in SyntaxChars then Ok((pos + 1, flags, tokens + [Syn(c)]))
    else if c == ':' then
      match KeyTokens(src, pos)
      case Err(e) => Err(e)
      case Ok((e, ts)) => Ok((e + 1, flags, tokens + ts))
    else if c == '#' then Ok((CommentEnd(src, pos) + 1, flags, tokens))
    else
      match ValueLoop(src, pos, flags, InsideList(tokens), tokens, dedent)
      case Err(e) => Err(e)
      case Ok((e, ts)) => Ok((e + 1, flags, ts))
  }

  /** The `while True` loop of `lex` from `pos` on, given the flags and the
      tokens so far. */
  function LexLoop(src: string, pos: nat, flags: Flags, tokens: seq<Token>, dedent: string -> string): (r: Result<seq<Token>>)
    decreases |src| - pos
  {
    if pos >= |src| then Ok(tokens)
    else
      match LexNext(src, pos, flags, tokens, dedent)
      case Err(e) => Err(e)
      case Ok((p, f, ts)) => LexLoop(src, p, f, ts, dedent)
  }

  /** The end of `lex`: no tokens at all is an index error, and a stream
      that starts with a key is wrapped in `{` and `}`, so what comes out
      never starts with a key. */
  function Finish(tokens: seq<Token>): (r: Result<seq<Token>>)
    ensures r.Ok? <==> tokens != []
    ensures r.Err? ==> r.error == IndexOutOfRange
    ensures r.Ok? ==> r.value != [] && r.value[0].kind != Key
    ensures r.Ok? && tokens[0].kind != Key ==> r.value == tokens
    ensures r.Ok? && tokens[0].kind == Key ==>
      |r.value| == |tokens| + 2 && r.value[0] == Syn('{') && r.value[|r.value| - 1] == Syn('}')
      && r.value[1..|r.value| - 1] == tokens
  {
    if tokens == [] then Err(IndexOutOfRange)
    else if tokens[0].kind == Key then Ok([Syn('{')] + tokens + [Syn('}')])
    else Ok(tokens)
  }

  /** What `lex(src)` returns, with `dedent` standing for
      `textwrap.dedent`. */
  function LexSpec(src: string, dedent: string -> string): (r: Result<seq<Token>>)
    ensures r.Ok? ==> r.value != [] && r.value[0].kind != Key
  {
    var s := dedent(src);
    match LexLoop(s, SkipEnd(s, 0, WhiteSpace), Flags(false, false), [], dedent)
    case Err(e) => Err(e)
    case Ok(tokens) => Finish(tokens)
  }

  /** The key branch of `lex` for the colon at `pos`: the name is read
      character by character up to whitespace or `}`. */
  method LexKey(src: string, pos: nat) returns (r: Result<(nat, seq<Token>)>)
    requires pos < |src|
    ensures r == KeyTokens(src, pos)
  {
    var p := pos;
    var key := "";
    while p + 1 < |src| && src[p + 1] !in KeyEnds
      invariant pos <= p < |src|
      invariant key == src[pos + 1..p + 1]
      invariant forall i :: pos + 1 <= i < p + 1 ==> src[i] !in KeyEnds
      decreases |src| - p
    {
      key := key + [src[p + 1]];
      p := p + 1;
    }
    StopAtIs(src, pos + 1, p + 1, KeyEnds);
    if p + 1 >= |src| {
      return Err(IndexOutOfRange);
    }
    var c := src[p + 1];
    p := p + 1;
    if c != '}' {
      r := Ok((p, [Token(Key, StrVal(key))]));
    } else {
      r := Ok((p, [Token(Key, NoneVal), Syn('}')]));
    }
  }

  /** The flag updates at the top of the `lex` loop. */
  method UpdateFlags(flags: Flags, c: char) returns (f: Flags)
    ensures f == StepFlags(flags, c)
  {
    f := flags;
    if c in Newlines {
      f := f.(inline := false);
    }
    if c == '>' {
      f := f.(fold := true);
    }
    if c in SyntaxChars || c == ':' {
      f := f.(fold := false);
    }
  }

  /** The body of the `while True` loop of `lex` for the character at
      `pos`. */
  method LexRound(src: string, pos: nat, flags: Flags, tokens: seq<Token>, dedent: string -> string)
    returns (r: Result<(nat, Flags, seq<Token>)>)
    requires pos < |src|
    ensures r == LexNext(src, pos, flags, tokens, dedent)
  {
    var c := src[pos];
    var stepped := UpdateFlags(flags, c);
    if c in Newlines || c == '>' {
      return Ok((pos + 1, stepped, tokens));
    }
    if c == '{' || c == '[' {
      var p := SkipChars(src, pos + 1, {' ', '\t'});
      return Ok((p, stepped.(inline := true), tokens + [Syn(c)]));
    } else if c in SyntaxChars {
      return Ok((pos + 1, stepped, tokens + [Syn(c)]));
    } else if c == ':' {
      var k :- LexKey(src, pos);
      return Ok((k.0 + 1, stepped, tokens + k.1));
    } else if c == '#' {
      var p := SkipComment(src, pos);
      return Ok((p + 1, stepped, tokens));
    } else {
      r := LexValueRound(src, pos, flags, stepped, tokens, dedent);
    }
  }

  /** The last branch of the `lex` loop: the values that start at `pos`,
      read with the flags `stepped` already updated for `src[pos]`. */
  method LexValueRound(src: string, pos: nat, flags: Flags, stepped: Flags, tokens: seq<Token>, dedent: string -> string)
    returns (r: Result<(nat, Flags, seq<Token>)>)
    requires pos < |src| && src[pos] !in Breakers && src[pos] !in Newlines && src[pos] != '>'
    requires stepped == StepFlags(flags, src[pos])
    ensures r == LexNext(src, pos, flags, tokens, dedent)
  {
    var v :- LexValue(src, pos, stepped, tokens, dedent);
    return Ok((v.0 + 1, stepped, v.1));
  }

  /** `lex(src)` */
  method Lex(src: string, dedent: string -> string) returns (r: Result<seq<Token>>)
    ensures r == LexSpec(src, dedent)
  {
    var tokens: seq<Token> := [];
    var flags := Flags(false, false);
    var s := dedent(src);
    var pos := SkipChars(s, 0, WhiteSpace);
    ghost var spec := LexLoop(s, pos, flags, tokens, dedent);
    while pos < |s|
      invariant LexLoop(s, pos, flags, tokens, dedent) == spec
      decreases |s| - pos
    {
      var next :- LexRound(s, pos, flags, tokens, dedent);
      pos, flags, tokens := next.0, next.1, next.2;
    }
    r := Finish(tokens);
  }

  // ---------------------------------------------------------------------
  // What the main loop emits
  // ---------------------------------------------------------------------

  /** A `#` comment emits no token: the loop goes on after the comment
      with the tokens unchanged. */
  lemma CommentEmitsNothing(src: string, pos: nat, flags: Flags, tokens: seq<Token>, dedent: string -> string)
    requires pos < |src| && src[pos] == '#'
    ensures var r := LexNext(src, pos, flags, tokens, dedent);
      r.Ok? && r.value.2 == tokens && r.value.0 == CommentEnd(src, pos) + 1
  {
  }

  /** `{` and `[` emit their delimiter, set INLINE and skip the spaces and
      tabs after them; `}` and `]` emit their delimiter and nothing else. */
  lemma DelimiterTokens(src: string, pos: nat, flags: Flags, tokens: seq<Token>, dedent: string -> string)
    requires pos < |src| && src[pos] in SyntaxChars
    ensures var r := LexNext(src, pos, flags, tokens, dedent);
      && r.Ok? && r.value.2 == tokens + [Syn(src[pos])] && !r.value.1.fold
      && (src[pos] in {'{', '['} ==>
            r.value.1.inline && r.value.0 == SkipEnd(src, pos + 1, {' ', '\t'}))
      && (src[pos] in {'}', ']'} ==> r.value.1 == flags.(fold := false) && r.value.0 == pos + 1)
  {
  }

  // ---------------------------------------------------------------------
  // The token stream
  // ---------------------------------------------------------------------

  /** A token as `lex` makes it: a syntax token holds one of the four
      delimiters, a key holds None or a name without whitespace or `}`, a
      float holds a text with a point, and every other kind holds a value
      of its own type. */
  predicate GoodToken(t: Token)
  {
    match t.kind
    case Syntax => t.value in {MapOpen, MapClose, ListOpen, ListClose}
    case Key => t.value == NoneVal || (t.value.StrVal? && forall i :: 0 <= i < |t.value.s| ==> t.value.s[i] !in KeyEnds)
    case Float => t.value.FloatVal? && '.' in t.value.text
    case Int => t.value.IntVal?
    case Bool => t.value.BoolVal?
    case Null => t.value == NoneVal
    case Str => t.value.StrVal?
  }

  /** Every token is well formed, and a key without a name is directly
      followed by the `}` that ended it. */
  predicate GoodStream(ts: seq<Token>)
  {
    && (forall i :: 0 <= i < |ts| ==> GoodToken(ts[i]))
    && (forall i :: 0 <= i < |ts| && ts[i] == Token(Key, NoneVal) ==> i + 1 < |ts| && ts[i + 1] == Syn('}'))
  }

  lemma GoodStreamAppend(a: seq<Token>, b: seq<Token>)
    requires GoodStream(a) && GoodStream(b)
    ensures GoodStream(a + b)
  {
    forall i | 0 <= i < |a + b| && (a + b)[i] == Token(Key, NoneVal)
      ensures i + 1 < |a + b| && (a + b)[i + 1] == Syn('}')
    {
      if i < |a| {
        assert a[i] == Token(Key, NoneVal);
      } else {
        assert b[i - |a|] == Token(Key, NoneVal);
      }
    }
  }

  /** The tokens of one value are well formed, and none is a key. */
  lemma ValueItemGood(src: string, p: nat, flags: Flags, insideList: bool, dedent: string -> string)
    requires p < |src| && src[p] !in Breakers
    ensures var r := ValueItem(src, p, flags, insideList, dedent);
      r.Ok? ==> GoodStream(r.value.1) && forall i :: 0 <= i < |r.value.1| ==> r.value.1[i].kind != Key
  {
    if src[p] !in Quotes && (IsDigit(src[p]) || src[p] == '-') {
      NumberTokenSpec(src[p..StopAt(src, p, NumberEnds)]);
    }
  }

  /** `lex_value` appends well-formed tokens to a well-formed stream. */
  lemma {:induction false} ValueLoopGood(src: string, pos: nat, flags: Flags, insideList: bool, tokens: seq<Token>,
                                         dedent: string -> string)
    requires 0 < pos || (pos < |src| && src[pos] !in Breakers)
    requires GoodStream(tokens)
    ensures var r := ValueLoop(src, pos, flags, insideList, tokens, dedent);
      r.Ok? ==> GoodStream(r.value.1)
    decreases |src| - pos, 1
  {
    var p := if insideList then SkipEnd(src, pos, WhiteSpace) else pos;
    if p >= |src| || src[p] in Breakers {
      ValueLoopStop(src, pos, flags, insideList, tokens, dedent, p);
    } else {
      ValueItemThenGood(src, pos, flags, insideList, tokens, dedent, p);
    }
  }

  /** The round of `ValueLoopGood` that reads a value at `p`. */
  lemma {:induction false} ValueItemThenGood(src: string, pos: nat, flags: Flags, insideList: bool, tokens: seq<Token>,
                                             dedent: string -> string, p: nat)
    requires 0 < pos || (pos < |src| && src[pos] !in Breakers)
    requires GoodStream(tokens)
    requires p == (if insideList then SkipEnd(src, pos, WhiteSpace) else pos)
    requires p < |src| && src[p] !in Breakers
    ensures var r := ValueLoop(src, pos, flags, insideList, tokens, dedent);
      r.Ok? ==> GoodStream(r.value.1)
    decreases |src| - pos, 0
  {
    var item := ValueItem(src, p, flags, insideList, dedent);
    if item.Ok? {
      var (e, ts) := item.value;
      ValueItemGood(src, p, flags, insideList, dedent);
      GoodStreamAppend(tokens, ts);
      ValueLoopGood(src, e + 1, flags, insideList, tokens + ts, dedent);
      ValueLoopStep(src, pos, flags, insideList, tokens, dedent, p, e, ts);
    } else {
      ValueLoopFail(src, pos, flags, insideList, tokens, dedent, p);
    }
  }

  /** One round of `lex` keeps the stream well formed. */
  lemma LexNextGood(src: string, pos: nat, flags: Flags, tokens: seq<Token>, dedent: string -> string)
    requires pos < |src| && GoodStream(tokens)
    ensures var r := LexNext(src, pos, flags, tokens, dedent);
      r.Ok? ==> GoodStream(r.value.2)
  {
    var c := src[pos];
    if c in SyntaxChars {
      assert GoodToken(Syn(c)) by {
        assert [c] in {"{", "}", "[", "]"};
      }
      assert GoodStream([Syn(c)]);
      GoodStreamAppend(tokens, [Syn(c)]);
    } else if c == ':' {
      var k := KeyTokens(src, pos);
      KeyTokensSpec(src, pos);
      if k.Ok? {
        GoodStreamAppend(tokens, k.value.1);
      }
    } else if c != '#' && c !in Newlines && c != '>' {
      ValueLoopGood(src, pos, StepFlags(flags, c), InsideList(tokens), tokens, dedent);
    }
  }

  lemma {:induction false} LexLoopGood(src: string, pos: nat, flags: Flags, tokens: seq<Token>, dedent: string -> string)
    requires GoodStream(tokens)
    ensures var r := LexLoop(src, pos, flags, tokens, dedent);
      r.Ok? ==> GoodStream(r.value)
    decreases |src| - pos
  {
    if pos < |src| {
      var n := LexNext(src, pos, flags, tokens, dedent);
      LexNextGood(src, pos, flags, tokens, dedent);
      if n.Ok? {
        LexLoopGood(src, n.value.0, n.value.1, n.value.2, dedent);
      }
    }
  }

  /** Whatever `lex` returns is a well-formed stream that does not start
      with a key. */
  lemma LexGood(src: string, dedent: string -> string)
    ensures var r := LexSpec(src, dedent);
      r.Ok? ==> r.value[0].kind != Key && GoodStream(r.value)
  {
    var s := dedent(src);
    var loop := LexLoop(s, SkipEnd(s, 0, WhiteSpace), Flags(false, false), [], dedent);
    LexLoopGood(s, SkipEnd(s, 0, WhiteSpace), Flags(false, false), [], dedent);
    if loop.Ok? && loop.value != [] && loop.value[0].kind == Key {
      assert GoodStream([Syn('{')]) && GoodStream([Syn('}')]) by {
        assert "{" in {"{", "}", "[", "]"} && "}" in {"{", "}", "[", "]"};
      }
      GoodStreamAppend([Syn('{')], loop.value);
      GoodStreamAppend([Syn('{')] + loop.value, [Syn('}')]);
    }
  }
}
