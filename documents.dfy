/** Documents from the test suite, decoded from their text.

    These documents are single lines without indentation, so
    `textwrap.dedent` leaves them, and every piece of them, unchanged: the
    dedent parameter is the identity here. */
module Documents {
  import opened Errors
  import opened Lexer
  import opened Parser
  import opened Loads

  /** `textwrap.dedent` on a text with no common leading whitespace. */
  function NoIndent(s: string): string
  {
    s
  }

  // ---------------------------------------------------------------------
  // Lexing steps shared by the documents
  // ---------------------------------------------------------------------

  /** The flags inside a one-line `{` or `[` document. */
  const Inline := Flags(true, false)

  /** `loads` is `lex` followed by `parse` of the whole token stream. */
  lemma LoadsOf(s: string, tokens: seq<Token>, r: Result<Value>)
    requires LexSpec(s, NoIndent) == Ok(tokens)
    requires match Parse(tokens, true) case Ok(p) => r == Ok(p.value) case Err(e) => r == Err(e)
    ensures LoadsSpec(s, NoIndent) == r
  {
  }

  /** One round of the `lex` loop. */
  lemma LoopStep(src: string, pos: nat, f: Flags, t: seq<Token>, p: nat, f': Flags, t': seq<Token>)
    requires pos < |src| && LexNext(src, pos, f, t, NoIndent) == Ok((p, f', t'))
    ensures LexLoop(src, pos, f, t, NoIndent) == LexLoop(src, p, f', t', NoIndent)
  {
  }

  /** The `lex` loop ends at the end of the text. */
  lemma LoopEnd(src: string, f: Flags, t: seq<Token>)
    ensures LexLoop(src, |src|, f, t, NoIndent) == Ok(t)
  {
  }

  /** A document that opens with `{` or `[` directly followed by its first
      item starts with that one syntax token and the inline flag set. */
  lemma OpenStep(s: string)
    requires 1 < |s| && (s[0] == '{' || s[0] == '[') && s[1] !in {' ', '\t'}
    ensures LexNext(s, 0, Flags(false, false), [], NoIndent) == Ok((1, Inline, [Syn(s[0])]))
  {
    assert SkipEnd(s, 1, {' ', '\t'}) == 1;
    assert StepFlags(Flags(false, false), s[0]) == Flags(false, false);
    var r := LexNext(s, 0, Flags(false, false), [], NoIndent);
    assert r.Ok? && r.value.0 == 1;
    assert r.value.1 == Inline && r.value.2 == [Syn(s[0])];
  }

  /** A closing `}` or `]` is one syntax token. */
  lemma CloseStep(src: string, pos: nat, t: seq<Token>)
    requires pos < |src| && src[pos] in {'}', ']'}
    ensures LexNext(src, pos, Inline, t, NoIndent) == Ok((pos + 1, Inline, t + [Syn(src[pos])]))
  {
  }

  /** A key `:name` ended by a blank is a key token holding the name; the
      blank is consumed with it. */
  lemma KeyStep(src: string, pos: nat, t: seq<Token>, name: string)
    requires pos + |name| + 1 < |src| && src[pos] == ':' && src[pos + |name| + 1] == ' '
    requires src[pos + 1..pos + |name| + 1] == name
    requires forall i :: 0 <= i < |name| ==> name[i] !in KeyEnds
    ensures LexNext(src, pos, Inline, t, NoIndent) == Ok((pos + |name| + 2, Inline, t + [Token(Key, StrVal(name))]))
  {
    forall i | pos < i < pos + |name| + 1
      ensures src[i] !in KeyEnds
    {
      assert src[i] == name[i - pos - 1];
    }
    StopAtIs(src, pos + 1, pos + |name| + 1, KeyEnds);
  }

  /** A round of `lex` that hands a letter or a digit to `lex_value`. */
  lemma ValueStep(src: string, pos: nat, t: seq<Token>, e: nat, ts: seq<Token>)
    requires 0 < pos < |src| && ('a' <= src[pos] <= 'z' || IsDigit(src[pos]))
    requires ValueLoop(src, pos, Inline, InsideList(t), t, NoIndent) == Ok((e, ts))
    ensures LexNext(src, pos, Inline, t, NoIndent) == Ok((e + 1, Inline, ts))
  {
    assert StepFlags(Inline, src[pos]) == Inline;
  }

  /** A single digit followed by whitespace, `]` or `}` is that integer,
      and the number ends on the digit. */
  lemma DigitNumber(src: string, p: nat)
    requires p + 1 < |src| && IsDigit(src[p]) && src[p + 1] in NumberEnds
    ensures NumberSpec(src, p) == Ok((p, Token(Int, IntVal(DigitValue(src[p])))))
  {
    StopAtIs(src, p, p + 1, NumberEnds);
    assert src[p..p + 1] == [src[p]];
    assert ParseInt([src[p]]) == Ok(DigitValue(src[p]));
  }

  /** Inside a list, `lex_value` skips the whitespace before a one-digit
      number, reads it, and goes on after it. */
  lemma ListDigitStep(src: string, pos: nat, toks: seq<Token>, p: nat, n: int)
    requires 0 < pos && p == SkipEnd(src, pos, WhiteSpace)
    requires p + 1 < |src| && IsDigit(src[p]) && src[p + 1] in NumberEnds
    requires DigitValue(src[p]) == n
    ensures ValueLoop(src, pos, Inline, true, toks, NoIndent)
         == ValueLoop(src, p + 1, Inline, true, toks + [Token(Int, IntVal(n))], NoIndent)
  {
    DigitNumber(src, p);
    assert src[p] !in Breakers && src[p] !in Quotes;
    assert ValueItem(src, p, Inline, true, NoIndent) == Ok((p, [Token(Int, IntVal(n))]));
    ValueLoopStep(src, pos, Inline, true, toks, NoIndent, p, p, [Token(Int, IntVal(n))]);
  }

  /** A text starting with a letter, with its trailing blanks trimmed,
      is what `lex_unquoted_str` keeps of it on a line of its own. */
  lemma CleanWord(raw: string, word: string)
    requires raw != [] && 'a' <= raw[0] <= 'z'
    requires RStrip(raw, {' ', '\n', '\t'}) == word
    ensures CleanText(raw, ' ', false, NoIndent) == word && word != []
  {
    RStripSpec(raw, {' ', '\n', '\t'});
    assert word != [] && word[0] == raw[0];
    assert LStrip(word, PyWhitespace) == word;
  }

  /** Outside a list, an unquoted text `raw` after a blank runs up to the
      next breaker, which `lex_unquoted_str` leaves for the main loop. */
  lemma WordUnquoted(src: string, pos: nat, raw: string, word: string)
    requires 0 < pos && pos + |raw| < |src| && src[pos + |raw|] in Breakers
    requires src[pos - 1] == ' ' && src[pos..pos + |raw|] == raw
    requires forall i :: 0 <= i < |raw| ==> raw[i] !in Breakers
    requires src[pos] !in Breakers && CleanText(raw, ' ', false, NoIndent) == word
    ensures UnquotedSpec(src, pos, Inline, false, NoIndent) == (pos + |raw| - 1, word)
  {
    var stop := pos + |raw|;
    forall i | pos <= i < stop
      ensures src[i] !in Breakers
    {
      assert src[i] == raw[i - pos];
    }
    StopAtIs(src, pos, stop, Breakers);
  }

  /** Such a text, once cleaned, is one string token; the value ends just
      before the breaker. */
  lemma WordItem(src: string, pos: nat, raw: string, word: string)
    requires 0 < pos && pos + |raw| < |src| && src[pos + |raw|] in Breakers
    requires src[pos - 1] == ' ' && src[pos..pos + |raw|] == raw
    requires raw != [] && 'a' <= raw[0] <= 'z'
    requires forall i :: 0 <= i < |raw| ==> raw[i] !in Breakers
    requires CleanText(raw, ' ', false, NoIndent) == word && word != []
    requires word !in {"True", "true", "False", "false", "null"}
    ensures ValueItem(src, pos, Inline, false, NoIndent) == Ok((pos + |raw| - 1, [Token(Str, StrVal(word))]))
  {
    assert src[pos] == raw[0];
    WordUnquoted(src, pos, raw, word);
    LexStrBoolNullSpec(word);
  }

  /** A round of `lex` outside a list that reads such a word; `lex` goes
      on at the breaker. */
  lemma WordStep(src: string, pos: nat, stop: nat, t: seq<Token>, word: string)
    requires 0 < pos < stop < |src| && src[stop] in Breakers && !InsideList(t)
    requires 'a' <= src[pos] <= 'z'
    requires ValueItem(src, pos, Inline, false, NoIndent) == Ok((stop - 1, [Token(Str, StrVal(word))]))
    ensures LexNext(src, pos, Inline, t, NoIndent) == Ok((stop, Inline, t + [Token(Str, StrVal(word))]))
  {
    ValueLoopStop(src, stop, Inline, false, t + [Token(Str, StrVal(word))], NoIndent, stop);
    ValueLoopStep(src, pos, Inline, false, t, NoIndent, pos, stop - 1, [Token(Str, StrVal(word))]);
    ValueStep(src, pos, t, stop - 1, t + [Token(Str, StrVal(word))]);
  }

  /** A value round of `lex` outside a list that reads the word `raw`,
      cleaned to `word`, up to the breaker at `stop`. */
  lemma WordRound(src: string, pos: nat, stop: nat, t: seq<Token>, raw: string, word: string)
    requires 0 < pos && pos + |raw| == stop < |src| && src[stop] in Breakers && !InsideList(t)
    requires src[pos - 1] == ' ' && src[pos..stop] == raw
    requires raw != [] && 'a' <= raw[0] <= 'z'
    requires forall i :: 0 <= i < |raw| ==> raw[i] !in Breakers
    requires CleanText(raw, ' ', false, NoIndent) == word && word != []
    requires word !in {"True", "true", "False", "false", "null"}
    ensures LexNext(src, pos, Inline, t, NoIndent) == Ok((stop, Inline, t + [Token(Str, StrVal(word))]))
  {
    WordItem(src, pos, raw, word);
    assert src[pos] == raw[0];
    WordStep(src, pos, stop, t, word);
  }

  // ---------------------------------------------------------------------
  // `{:key value}`
  // ---------------------------------------------------------------------

  /** The characters of `{:key value}` that its lexing looks at. */
  predicate BasicMapShape(s: string)
  {
    && |s| == 12 && s[0] == '{' && s[1] == ':' && s[2..5] == "key" && s[5] == ' '
    && s[6..11] == "value" && s[11] == '}'
  }

  function BasicMapTokens(): seq<Token>
  {
    [Syn('{'), Token(Key, StrVal("key")), Token(Str, StrVal("value")), Syn('}')]
  }

  /** The rounds of `lex` on `{:key value}` around its value: the `{`, the
      key and the `}`. */
  lemma BasicMapRounds(s: string)
    requires BasicMapShape(s)
    ensures LexNext(s, 0, Flags(false, false), [], NoIndent) == Ok((1, Inline, BasicMapTokens()[..1]))
    ensures LexNext(s, 1, Inline, BasicMapTokens()[..1], NoIndent) == Ok((6, Inline, BasicMapTokens()[..2]))
    ensures LexNext(s, 11, Inline, BasicMapTokens()[..3], NoIndent) == Ok((12, Inline, BasicMapTokens()))
  {
    var t := BasicMapTokens();
    OpenStep(s);
    assert [Syn(s[0])] == t[..1];
    KeyStep(s, 1, t[..1], "key");
    assert t[..1] + [t[1]] == t[..2];
    CloseStep(s, 11, t[..3]);
    assert t[..3] + [t[3]] == t;
  }

  /** The value round of `lex` on `{:key value}`. */
  lemma BasicMapValue(s: string)
    requires BasicMapShape(s)
    ensures LexNext(s, 6, Inline, BasicMapTokens()[..2], NoIndent) == Ok((11, Inline, BasicMapTokens()[..3]))
  {
    var t := BasicMapTokens();
    CleanWord("value", "value");
    WordRound(s, 6, 11, t[..2], "value", "value");
    assert t[..2] + [t[2]] == t[..3];
  }

  /** The text `{:key value}` has the shape its lexing looks at. */
  lemma BasicMapText()
    ensures BasicMapShape("{:key value}")
  {
    var s := "{:key value}";
    assert s[2..5] == "key";
    assert s[6..11] == "value";
  }

  /** The `lex` loop over a text of the shape of `{:key value}`. */
  lemma BasicMapLoop(s: string)
    requires BasicMapShape(s)
    ensures LexLoop(s, 0, Flags(false, false), [], NoIndent) == Ok(BasicMapTokens())
  {
    var t := BasicMapTokens();
    BasicMapRounds(s);
    BasicMapValue(s);
    LoopStep(s, 0, Flags(false, false), [], 1, Inline, t[..1]);
    LoopStep(s, 1, Inline, t[..1], 6, Inline, t[..2]);
    LoopStep(s, 6, Inline, t[..2], 11, Inline, t[..3]);
    LoopStep(s, 11, Inline, t[..3], 12, Inline, t);
    LoopEnd(s, Inline, t);
  }

  /** `{:key value}` lexes to `{`, the key `key`, the string `value`, `}`. */
  lemma LexBasicMap()
    ensures LexSpec("{:key value}", NoIndent) == Ok(BasicMapTokens())
  {
    var s := "{:key value}";
    BasicMapText();
    BasicMapLoop(s);
    assert SkipEnd(s, 0, WhiteSpace) == 0;
  }

  /** `loads("{:key value}")` is `{"key": "value"}`. */
  lemma LoadsBasicMap()
    ensures LoadsSpec("{:key value}", NoIndent) == Ok(Map([Entry(StrVal("key"), Scalar(StrVal("value")))]))
  {
    LexBasicMap();
    BasicMapParses();
    LoadsOf("{:key value}", BasicMapTokens(), Ok(Map([Entry(StrVal("key"), Scalar(StrVal("value")))])));
  }

  /** The tokens of `{:key value}` parse to `{"key": "value"}`. */
  lemma BasicMapParses()
    ensures Parse(BasicMapTokens(), true) == Ok(Parsed(Map([Entry(StrVal("key"), Scalar(StrVal("value")))]), []))
  {
    var v := Map([Entry(StrVal("key"), Scalar(StrVal("value")))]);
    assert Emit(v) == BasicMapTokens() by {
      assert EmitEntries(v.entries[1..]) == [];
    }
    DocumentRoundTrip(v);
  }

  // ---------------------------------------------------------------------
  // `[1 2 3 4 5]`
  // ---------------------------------------------------------------------

  /** The characters of `[1 2 3 4 5]`. */
  predicate BasicListShape(s: string)
  {
    && |s| == 11 && s[0] == '[' && s[1] == '1' && s[2] == ' ' && s[3] == '2' && s[4] == ' '
    && s[5] == '3' && s[6] == ' ' && s[7] == '4' && s[8] == ' ' && s[9] == '5' && s[10] == ']'
  }

  function Ints(): seq<Value>
  {
    [Scalar(IntVal(1)), Scalar(IntVal(2)), Scalar(IntVal(3)), Scalar(IntVal(4)), Scalar(IntVal(5))]
  }

  function BasicListTokens(): seq<Token>
  {
    [Syn('['), Token(Int, IntVal(1)), Token(Int, IntVal(2)), Token(Int, IntVal(3)),
     Token(Int, IntVal(4)), Token(Int, IntVal(5)), Syn(']')]
  }

  /** The first two rounds of `lex_value` on `[1 2 3 4 5]`, one number
      each. */
  lemma ListSteps12(s: string)
    requires BasicListShape(s)
    ensures ValueLoop(s, 1, Inline, true, BasicListTokens()[..1], NoIndent)
         == ValueLoop(s, 4, Inline, true, BasicListTokens()[..3], NoIndent)
  {
    var t := BasicListTokens();
    ListDigitStep(s, 1, t[..1], 1, 1);
    assert t[..1] + [t[1]] == t[..2];
    ListDigitStep(s, 2, t[..2], 3, 2);
    assert t[..2] + [t[2]] == t[..3];
  }

  /** The third and fourth rounds of `lex_value` on `[1 2 3 4 5]`. */
  lemma ListSteps34(s: string)
    requires BasicListShape(s)
    ensures ValueLoop(s, 4, Inline, true, BasicListTokens()[..3], NoIndent)
         == ValueLoop(s, 8, Inline, true, BasicListTokens()[..5], NoIndent)
  {
    var t := BasicListTokens();
    ListDigitStep(s, 4, t[..3], 5, 3);
    assert t[..3] + [t[3]] == t[..4];
    ListDigitStep(s, 6, t[..4], 7, 4);
    assert t[..4] + [t[4]] == t[..5];
  }

  /** The last rounds of `lex_value` on `[1 2 3 4 5]`: the fifth number,
      then the `]` that ends the call. */
  lemma ListStep5(s: string)
    requires BasicListShape(s)
    ensures ValueLoop(s, 8, Inline, true, BasicListTokens()[..5], NoIndent)
         == Ok((9, BasicListTokens()[..6]))
  {
    var t := BasicListTokens();
    ListDigitStep(s, 8, t[..5], 9, 5);
    assert t[..5] + [t[5]] == t[..6];
    ValueLoopStop(s, 10, Inline, true, t[..6], NoIndent, 10);
  }

  /** One call of `lex_value` on `[1 2 3 4 5]` reads all five numbers and
      stops before the `]`. */
  lemma ListValues(s: string)
    requires BasicListShape(s)
    ensures ValueLoop(s, 1, Inline, true, BasicListTokens()[..1], NoIndent) == Ok((9, BasicListTokens()[..6]))
  {
    ListSteps12(s);
    ListSteps34(s);
    ListStep5(s);
  }

  /** The rounds of `lex` on `[1 2 3 4 5]`: the `[`, one call of
      `lex_value` reading all five numbers, and the `]`. */
  lemma BasicListRounds(s: string)
    requires BasicListShape(s)
    ensures LexNext(s, 0, Flags(false, false), [], NoIndent) == Ok((1, Inline, BasicListTokens()[..1]))
    ensures LexNext(s, 1, Inline, BasicListTokens()[..1], NoIndent) == Ok((10, Inline, BasicListTokens()[..6]))
    ensures LexNext(s, 10, Inline, BasicListTokens()[..6], NoIndent) == Ok((11, Inline, BasicListTokens()))
  {
    var t := BasicListTokens();
    OpenStep(s);
    assert [Syn(s[0])] == t[..1];
    ListValues(s);
    assert InsideList(t[..1]);
    ValueStep(s, 1, t[..1], 9, t[..6]);
    CloseStep(s, 10, t[..6]);
    assert t[..6] + [t[6]] == t;
  }

  /** The text `[1 2 3 4 5]` has the shape its lexing looks at. */
  lemma BasicListText()
    ensures BasicListShape("[1 2 3 4 5]")
  {
  }

  /** The `lex` loop over a text of the shape of `[1 2 3 4 5]`. */
  lemma BasicListLoop(s: string)
    requires BasicListShape(s)
    ensures LexLoop(s, 0, Flags(false, false), [], NoIndent) == Ok(BasicListTokens())
  {
    var t := BasicListTokens();
    BasicListRounds(s);
    LoopStep(s, 0, Flags(false, false), [], 1, Inline, t[..1]);
    LoopStep(s, 1, Inline, t[..1], 10, Inline, t[..6]);
    LoopStep(s, 10, Inline, t[..6], 11, Inline, t);
    LoopEnd(s, Inline, t);
  }

  /** `[1 2 3 4 5]` lexes to `[`, the five integers, `]`. */
  lemma LexBasicList()
    ensures LexSpec("[1 2 3 4 5]", NoIndent) == Ok(BasicListTokens())
  {
    var s := "[1 2 3 4 5]";
    BasicListText();
    BasicListLoop(s);
    assert SkipEnd(s, 0, WhiteSpace) == 0;
  }

  /** The tokens a list of the five numbers is written as. */
  lemma IntsTokens()
    ensures Emit(List(Ints())) == BasicListTokens()
  {
    IntsItems();
  }

  /** The tokens the five numbers are written as. */
  lemma IntsItems()
    ensures EmitItems(Ints()) == BasicListTokens()[1..6]
  {
    var items := Ints();
    assert EmitItems(items[5..]) == [];
    assert EmitItems(items[4..]) == [Token(Int, IntVal(5))];
    assert EmitItems(items[3..]) == [Token(Int, IntVal(4)), Token(Int, IntVal(5))];
    assert EmitItems(items[2..]) == [Token(Int, IntVal(3)), Token(Int, IntVal(4)), Token(Int, IntVal(5))];
    assert EmitItems(items[1..]) == BasicListTokens()[2..6];
  }

  /** `loads("[1 2 3 4 5]")` is `[1, 2, 3, 4, 5]`. */
  lemma LoadsBasicList()
    ensures LoadsSpec("[1 2 3 4 5]", NoIndent) == Ok(List(Ints()))
  {
    LexBasicList();
    BasicListParses();
    LoadsOf("[1 2 3 4 5]", BasicListTokens(), Ok(List(Ints())));
  }

  /** The tokens of `[1 2 3 4 5]` parse to the list of the five numbers. */
  lemma BasicListParses()
    ensures Parse(BasicListTokens(), true) == Ok(Parsed(List(Ints()), []))
  {
    IntsTokens();
    IntsWritable();
    DocumentRoundTrip(List(Ints()));
  }

  /** The five numbers can be written as a document. */
  lemma IntsWritable()
    ensures Writable(List(Ints()))
  {
    var items := Ints();
    forall i | 0 <= i < |items|
      ensures Writable(items[i])
    {
      assert items[i].Scalar? && items[i].atom.IntVal?;
    }
  }

  // ---------------------------------------------------------------------
  // `{:key value :key value}`
  // ---------------------------------------------------------------------

  /** The characters of `{:key value :key value}` that its lexing looks
      at. */
  predicate DuplicateShape(s: string)
  {
    && |s| == 23 && s[0] == '{' && s[1] == ':' && s[2..5] == "key" && s[5] == ' '
    && s[6..12] == "value " && s[12] == ':' && s[13..16] == "key" && s[16] == ' '
    && s[17..22] == "value" && s[22] == '}'
  }

  function DuplicateTokens(): seq<Token>
  {
    [Syn('{'), Token(Key, StrVal("key")), Token(Str, StrVal("value")),
     Token(Key, StrVal("key")), Token(Str, StrVal("value")), Syn('}')]
  }

  /** `"value ".rstrip()` is `"value"`. */
  lemma TrimValue()
    ensures RStrip("value ", {' ', '\n', '\t'}) == "value"
  {
    assert "value "[..5] == "value";
  }

  /** The first rounds of `lex` on `{:key value :key value}`: the `{` and
      the first key. */
  lemma DuplicateRounds1(s: string)
    requires DuplicateShape(s)
    ensures LexNext(s, 0, Flags(false, false), [], NoIndent) == Ok((1, Inline, DuplicateTokens()[..1]))
    ensures LexNext(s, 1, Inline, DuplicateTokens()[..1], NoIndent) == Ok((6, Inline, DuplicateTokens()[..2]))
  {
    var t := DuplicateTokens();
    OpenStep(s);
    assert [Syn(s[0])] == t[..1];
    KeyStep(s, 1, t[..1], "key");
    assert t[..1] + [t[1]] == t[..2];
  }

  /** The first value of `{:key value :key value}` runs on to the second
      `:` and loses its trailing blank. */
  lemma DuplicateRound3(s: string)
    requires DuplicateShape(s)
    ensures LexNext(s, 6, Inline, DuplicateTokens()[..2], NoIndent) == Ok((12, Inline, DuplicateTokens()[..3]))
  {
    var t := DuplicateTokens();
    TrimValue();
    CleanWord("value ", "value");
    WordRound(s, 6, 12, t[..2], "value ", "value");
    assert t[..2] + [t[2]] == t[..3];
  }

  /** The second key of `{:key value :key value}` and its closing `}`. */
  lemma DuplicateRounds2(s: string)
    requires DuplicateShape(s)
    ensures LexNext(s, 12, Inline, DuplicateTokens()[..3], NoIndent) == Ok((17, Inline, DuplicateTokens()[..4]))
    ensures LexNext(s, 22, Inline, DuplicateTokens()[..5], NoIndent) == Ok((23, Inline, DuplicateTokens()))
  {
    var t := DuplicateTokens();
    KeyStep(s, 12, t[..3], "key");
    assert t[..3] + [t[3]] == t[..4];
    CloseStep(s, 22, t[..5]);
    assert t[..5] + [t[5]] == t;
  }

  /** The second value of `{:key value :key value}`, which ends at `}`. */
  lemma DuplicateRound5(s: string)
    requires DuplicateShape(s)
    ensures LexNext(s, 17, Inline, DuplicateTokens()[..4], NoIndent) == Ok((22, Inline, DuplicateTokens()[..5]))
  {
    var t := DuplicateTokens();
    CleanWord("value", "value");
    WordRound(s, 17, 22, t[..4], "value", "value");
    assert t[..4] + [t[4]] == t[..5];
  }

  /** The text `{:key value :key value}` has the shape its lexing looks
      at. */
  lemma DuplicateText()
    ensures DuplicateShape("{:key value :key value}")
  {
    var s := "{:key value :key value}";
    assert s[2..5] == "key";
    assert s[6..12] == "value ";
    assert s[13..16] == "key";
    assert s[17..22] == "value";
  }

  /** The `lex` loop over a text of the shape of `{:key value :key value}`. */
  lemma DuplicateLoop(s: string)
    requires DuplicateShape(s)
    ensures LexLoop(s, 0, Flags(false, false), [], NoIndent) == Ok(DuplicateTokens())
  {
    var t := DuplicateTokens();
    DuplicateRounds1(s);
    DuplicateRound3(s);
    DuplicateRounds2(s);
    DuplicateRound5(s);
    LoopStep(s, 0, Flags(false, false), [], 1, Inline, t[..1]);
    LoopStep(s, 1, Inline, t[..1], 6, Inline, t[..2]);
    LoopStep(s, 6, Inline, t[..2], 12, Inline, t[..3]);
    LoopStep(s, 12, Inline, t[..3], 17, Inline, t[..4]);
    LoopStep(s, 17, Inline, t[..4], 22, Inline, t[..5]);
    LoopStep(s, 22, Inline, t[..5], 23, Inline, t);
    LoopEnd(s, Inline, t);
  }

  /** `{:key value :key value}` lexes to the two key-value pairs between
      `{` and `}`; the blank after the first `value` is trimmed. */
  lemma LexDuplicateKeys()
    ensures LexSpec("{:key value :key value}", NoIndent) == Ok(DuplicateTokens())
  {
    var s := "{:key value :key value}";
    DuplicateText();
    DuplicateLoop(s);
    assert SkipEnd(s, 0, WhiteSpace) == 0;
  }

  /** `loads("{:key value :key value}")` is the duplicate-key error. */
  lemma LoadsDuplicateKeys()
    ensures LoadsSpec("{:key value :key value}", NoIndent) == Err(DuplicateKey)
  {
    LexDuplicateKeys();
    DuplicateKeyRejected();
    LoadsOf("{:key value :key value}", DuplicateTokens(), Err(DuplicateKey));
  }
}
