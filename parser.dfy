/** The usu recursive-descent parser.

    Python pops tokens off the front of one shared list. Every function
    there hands the remaining list back to its caller and the caller always
    continues with what it got back, so the shared list is modelled as an
    immutable token sequence: the specification functions return the
    remaining suffix, and the methods advance a cursor into the sequence. */
module Parser {
  import opened Errors
  import opened Lexer

  // ---------------------------------------------------------------------
  // Values
  // ---------------------------------------------------------------------

  /** The parse result: a map (a Python dict, which keeps insertion order),
      a list, or the scalar payload of one token. */
  datatype Value =
    | Map(entries: seq<Entry>)
    | List(items: seq<Value>)
    | Scalar(atom: Atom)

  datatype Entry = Entry(key: Atom, value: Value)

  /** A parsed value and the tokens left after it. */
  datatype Parsed = Parsed(value: Value, rest: seq<Token>)

  /** `key in usu_map` */
  predicate HasKey(entries: seq<Entry>, key: Atom)
  {
    exists i :: 0 <= i < |entries| && entries[i].key == key
  }

  /** A dict never holds the same key twice. */
  predicate DistinctKeys(entries: seq<Entry>)
  {
    forall i, j :: 0 <= i < j < |entries| ==> entries[i].key != entries[j].key
  }

  /** Inserting a key the dict does not hold keeps the keys distinct. */
  lemma DistinctKeysAppend(entries: seq<Entry>, e: Entry)
    requires DistinctKeys(entries) && !HasKey(entries, e.key)
    ensures DistinctKeys(entries + [e])
  {
    var s := entries + [e];
    forall i, j | 0 <= i < j < |s| ensures s[i].key != s[j].key {
      if j == |entries| {
        assert s[i] == entries[i];
      }
    }
  }

  predicate IsSuffix(r: seq<Token>, s: seq<Token>)
  {
    |r| <= |s| && r == s[|s| - |r|..]
  }

  /** The token that ends the prefix of `s` that was consumed to leave `rest`. */
  predicate ConsumedUpTo(s: seq<Token>, rest: seq<Token>, close: Atom)
  {
    |rest| < |s| && s[|s| - |rest| - 1].value == close
  }

  // ---------------------------------------------------------------------
  // Specification: the parser as functions over token suffixes
  // ---------------------------------------------------------------------

  /** `parse(tokens, root)`: every successful call consumes at least one
      token and returns a suffix of its input. */
  function Parse(s: seq<Token>, root: bool): (r: Result<Parsed>)
    decreases |s|, 0
    ensures r.Ok? ==> |r.value.rest| < |s|
  {
    if |s| > 0 && s[0].value == MapClose then Err(UnexpectedClose)
    else if |s| < 2 then Err(IndexOutOfRange)  // tokens.pop(0), then tokens[0]
    else
      var t, next := s[0], s[1];
      if root && t.value != MapOpen && t.value != ListOpen then Err(InvalidRoot)
      else if t.kind != Key && t.kind != Syntax then Ok(Parsed(Scalar(t.value), s[1..]))
      else if next.kind == Key || next.value == MapClose then ParseMap(s[1..])
      else ParseList(s[1..])
  }

  /** `parse_map(tokens)`: it reads `tokens[1]` before it looks for the
      empty map, and that token is the only one the missing-value check
      ever looks at. */
  function ParseMap(s: seq<Token>): (r: Result<Parsed>)
    decreases |s|, 2
    ensures r.Ok? ==> |r.value.rest| < |s|
  {
    if |s| < 2 then Err(IndexOutOfRange)
    else if s[0].value == MapClose then Ok(Parsed(Map([]), s[1..]))
    else MapEntries(s, [], s[1])
  }

  /** The `while True` loop of `parse_map`, with the dict built so far in
      `acc` and the token read once before the loop in `nextUsu`. The dict
      of a successful call extends `acc` without overwriting any entry. */
  function MapEntries(s: seq<Token>, acc: seq<Entry>, nextUsu: Token): (r: Result<Parsed>)
    decreases |s|, 1
    ensures r.Ok? ==> |r.value.rest| < |s|
  {
    if |s| == 0 then Err(IndexOutOfRange)
    else
      var key := s[0];
      if key.kind != Key then Err(ExpectedKey)
      else if nextUsu.kind == Key then Err(MissingValue)
      else match Parse(s[1..], false)
        case Err(e) => Err(e)
        case Ok(Parsed(v, rest)) =>
          if HasKey(acc, key.value) then Err(DuplicateKey)
          else
            var acc' := acc + [Entry(key.value, v)];
            if |rest| == 0 then Err(IndexOutOfRange)
            else if rest[0].value == MapClose then Ok(Parsed(Map(acc'), rest[1..]))
            else MapEntries(rest, acc', nextUsu)
  }

  /** `parse_list(tokens)` */
  function ParseList(s: seq<Token>): (r: Result<Parsed>)
    decreases |s|, 2
    ensures r.Ok? ==> |r.value.rest| < |s|
  {
    if |s| == 0 then Err(IndexOutOfRange)
    else if s[0].value == ListClose then Ok(Parsed(List([]), s[1..]))
    else ListItems(s, [])
  }

  /** The `while True` loop of `parse_list`, with the list built so far in
      `acc`. A successful call appends to `acc`, in token order. */
  function ListItems(s: seq<Token>, acc: seq<Value>): (r: Result<Parsed>)
    decreases |s|, 1
    ensures r.Ok? ==> |r.value.rest| < |s|
  {
    match Parse(s, false)
    case Err(e) => Err(e)
    case Ok(Parsed(v, rest)) =>
      var acc' := acc + [v];
      if |rest| == 0 then Err(IndexOutOfRange)
      else if rest[0].value == ListClose then Ok(Parsed(List(acc'), rest[1..]))
      else if rest[0].kind == Key then Err(KeyInList)
      else ListItems(rest, acc')
  }

  // ---------------------------------------------------------------------
  // The parser over a token sequence and a cursor
  // ---------------------------------------------------------------------

  /** A cursor result `r` matches a suffix result `spec`: the same error, or
      the same value with the cursor standing where the remainder starts. */
  predicate Agrees(toks: seq<Token>, r: Result<(Value, nat)>, spec: Result<Parsed>)
  {
    && r.Ok? == spec.Ok?
    && (spec.Err? ==> r.error == spec.error)
    && (spec.Ok? ==> r.value.0 == spec.value.value && r.value.1 <= |toks| && toks[r.value.1..] == spec.value.rest)
  }

  /** `parse(tokens, root)`; the cursor always moves forward. */
  method ParseAt(toks: seq<Token>, pos: nat, root: bool) returns (r: Result<(Value, nat)>)
    requires pos <= |toks|
    decreases |toks| - pos, 0
    ensures Agrees(toks, r, Parse(toks[pos..], root))
    ensures r.Ok? ==> pos < r.value.1 <= |toks|
  {
    if pos < |toks| && toks[pos].value == MapClose {
      return Err(UnexpectedClose);
    }
    if |toks| - pos < 2 {
      return Err(IndexOutOfRange);
    }
    var t := toks[pos];
    var next := toks[pos + 1];
    if root && t.value != MapOpen && t.value != ListOpen {
      return Err(InvalidRoot);
    }
    if t.kind != Key && t.kind != Syntax {
      return Ok((Scalar(t.value), pos + 1));
    }
    assert toks[pos..][1..] == toks[pos + 1..];
    if next.kind == Key || next.value == MapClose {
      r := ParseMapAt(toks, pos + 1);
    } else {
      r := ParseListAt(toks, pos + 1);
    }
  }

  /** `parse_map(tokens)`, inserting into the dict `entries` as it goes. */
  method ParseMapAt(toks: seq<Token>, pos: nat) returns (r: Result<(Value, nat)>)
    requires pos <= |toks|
    decreases |toks| - pos, 1
    ensures Agrees(toks, r, ParseMap(toks[pos..]))
    ensures r.Ok? ==> pos < r.value.1 <= |toks|
  {
    if |toks| - pos < 2 {
      return Err(IndexOutOfRange);
    }
    var nextUsu := toks[pos + 1];
    if toks[pos].value == MapClose {
      return Ok((Map([]), pos + 1));
    }
    var entries: seq<Entry> := [];
    var p := pos;
    while true
      invariant pos <= p < |toks|
      invariant MapEntries(toks[p..], entries, nextUsu) == ParseMap(toks[pos..])
      decreases |toks| - p
    {
      ghost var s := toks[p..];
      var key := toks[p];
      if key.kind != Key {
        return Err(ExpectedKey);
      }
      if nextUsu.kind == Key {
        return Err(MissingValue);
      }
      assert s[1..] == toks[p + 1..];
      var parsed :- ParseAt(toks, p + 1, false);
      var (value, q) := parsed;
      if HasKey(entries, key.value) {
        return Err(DuplicateKey);
      }
      entries := entries + [Entry(key.value, value)];
      p := q;
      if p == |toks| {
        return Err(IndexOutOfRange);
      }
      if toks[p].value == MapClose {
        assert toks[p..][1..] == toks[p + 1..];
        assert ParseMap(toks[pos..]) == Ok(Parsed(Map(entries), toks[p + 1..]));
        return Ok((Map(entries), p + 1));
      }
    }
  }

  /** `parse_list(tokens)`, appending to `items` as it goes. */
  method ParseListAt(toks: seq<Token>, pos: nat) returns (r: Result<(Value, nat)>)
    requires pos <= |toks|
    decreases |toks| - pos, 1
    ensures Agrees(toks, r, ParseList(toks[pos..]))
    ensures r.Ok? ==> pos < r.value.1 <= |toks|
  {
    if pos == |toks| {
      return Err(IndexOutOfRange);
    }
    if toks[pos].value == ListClose {
      return Ok((List([]), pos + 1));
    }
    var items: seq<Value> := [];
    var p := pos;
    while true
      invariant pos <= p < |toks|
      invariant ListItems(toks[p..], items) == ParseList(toks[pos..])
      decreases |toks| - p
    {
      var parsed :- ParseAt(toks, p, false);
      var (value, q) := parsed;
      items := items + [value];
      p := q;
      if p == |toks| {
        return Err(IndexOutOfRange);
      }
      if toks[p].value == ListClose {
        return Ok((List(items), p + 1));
      }
      if toks[p].kind == Key {
        return Err(KeyInList);
      }
    }
  }

  // ---------------------------------------------------------------------
  // What a successful parse consumed and built
  // ---------------------------------------------------------------------

  lemma SuffixOfTail(r: seq<Token>, s: seq<Token>)
    requires |s| > 0 && IsSuffix(r, s[1..])
    ensures IsSuffix(r, s)
  {
    assert s[1..][|s| - 1 - |r|..] == s[|s| - |r|..];
  }

  lemma SuffixTrans(a: seq<Token>, b: seq<Token>, c: seq<Token>)
    requires IsSuffix(a, b) && IsSuffix(b, c)
    ensures IsSuffix(a, c)
  {
    assert c[|c| - |b|..][|b| - |a|..] == c[|c| - |a|..];
  }

  lemma ConsumedTrans(s: seq<Token>, mid: seq<Token>, rest: seq<Token>, close: Atom)
    requires IsSuffix(mid, s) && ConsumedUpTo(mid, rest, close)
    ensures ConsumedUpTo(s, rest, close)
  {
    assert s[|s| - |mid|..][|mid| - |rest| - 1] == s[|s| - |rest| - 1];
  }

  /** The close token that stops a loop is the last token consumed. */
  lemma CloseConsumed(s: seq<Token>, rest: seq<Token>, close: Atom)
    requires IsSuffix(rest, s) && |rest| > 0 && rest[0].value == close
    ensures IsSuffix(rest[1..], s) && ConsumedUpTo(s, rest[1..], close)
  {
    assert s[|s| - |rest|..][1..] == s[|s| - |rest[1..]|..];
    assert s[|s| - |rest|..][0] == s[|s| - |rest[1..]| - 1];
  }

  /** `parse` returns a suffix of the tokens it was given. */
  lemma {:induction false} ParseRemainder(s: seq<Token>, root: bool)
    decreases |s|, 0
    ensures var r := Parse(s, root); r.Ok? ==> IsSuffix(r.value.rest, s)
  {
    var r := Parse(s, root);
    if r.Ok? && (s[0].kind == Key || s[0].kind == Syntax) {
      if s[1].kind == Key || s[1].value == MapClose {
        ParseMapCloses(s[1..]);
      } else {
        ParseListCloses(s[1..]);
      }
      SuffixOfTail(r.value.rest, s);
    }
  }

  /** `parse_map` builds a map whose keys are distinct and returns the
      tokens just past the `}` that closed it. */
  lemma {:induction false} ParseMapCloses(s: seq<Token>)
    decreases |s|, 2
    ensures var r := ParseMap(s); r.Ok? ==>
      && IsSuffix(r.value.rest, s) && ConsumedUpTo(s, r.value.rest, MapClose)
      && r.value.value.Map? && DistinctKeys(r.value.value.entries)
  {
    if |s| >= 2 && s[0].value != MapClose {
      MapEntriesCloses(s, [], s[1]);
    }
  }

  /** What a successful turn of the `parse_map` loop has read: a key, a
      value for it that `parse` accepted, and at least one token after. */
  lemma MapEntriesOk(s: seq<Token>, acc: seq<Entry>, nextUsu: Token)
    requires MapEntries(s, acc, nextUsu).Ok?
    ensures |s| > 0 && s[0].kind == Key && !HasKey(acc, s[0].value)
    ensures Parse(s[1..], false).Ok? && Parse(s[1..], false).value.rest != []
    ensures var p := Parse(s[1..], false).value;
      var acc' := acc + [Entry(s[0].value, p.value)];
      if p.rest[0].value == MapClose then MapEntries(s, acc, nextUsu) == Ok(Parsed(Map(acc'), p.rest[1..]))
      else MapEntries(s, acc, nextUsu) == MapEntries(p.rest, acc', nextUsu)
  {
  }

  /** Each turn of the `parse_map` loop keeps every entry already in the
      dict, in place, and adds one whose key was not there. */
  lemma {:induction false} MapEntriesCloses(s: seq<Token>, acc: seq<Entry>, nextUsu: Token)
    decreases |s|, 1
    ensures var r := MapEntries(s, acc, nextUsu); r.Ok? ==>
      && IsSuffix(r.value.rest, s) && ConsumedUpTo(s, r.value.rest, MapClose)
      && r.value.value.Map?
      && |r.value.value.entries| > |acc| && r.value.value.entries[..|acc|] == acc
      && (DistinctKeys(acc) ==> DistinctKeys(r.value.value.entries))
  {
    var r := MapEntries(s, acc, nextUsu);
    if r.Ok? {
      MapEntriesOk(s, acc, nextUsu);
      var p := Parse(s[1..], false);
      ParseRemainder(s[1..], false);
      var rest := p.value.rest;
      var acc' := acc + [Entry(s[0].value, p.value.value)];
      SuffixOfTail(rest, s);
      if DistinctKeys(acc) {
        DistinctKeysAppend(acc, Entry(s[0].value, p.value.value));
      }
      if rest[0].value == MapClose {
        CloseConsumed(s, rest, MapClose);
      } else {
        MapEntriesCloses(rest, acc', nextUsu);
        SuffixTrans(r.value.rest, rest, s);
        ConsumedTrans(s, rest, r.value.rest, MapClose);
        assert r.value.value.entries[..|acc|] == r.value.value.entries[..|acc'|][..|acc|];
      }
    }
  }

  /** `parse_list` builds a list and returns the tokens just past the `]`
      that closed it. */
  lemma {:induction false} ParseListCloses(s: seq<Token>)
    decreases |s|, 2
    ensures var r := ParseList(s); r.Ok? ==>
      && IsSuffix(r.value.rest, s) && ConsumedUpTo(s, r.value.rest, ListClose)
      && r.value.value.List?
  {
    if |s| > 0 && s[0].value != ListClose {
      ListItemsCloses(s, []);
    }
  }

  /** Each turn of the `parse_list` loop keeps the items already parsed, in
      order, and appends the next one. */
  lemma {:induction false} ListItemsCloses(s: seq<Token>, acc: seq<Value>)
    decreases |s|, 1
    ensures var r := ListItems(s, acc); r.Ok? ==>
      && IsSuffix(r.value.rest, s) && ConsumedUpTo(s, r.value.rest, ListClose)
      && r.value.value.List?
      && |r.value.value.items| > |acc| && r.value.value.items[..|acc|] == acc
  {
    var r := ListItems(s, acc);
    if r.Ok? {
      var p := Parse(s, false);
      ParseRemainder(s, false);
      var rest := p.value.rest;
      var acc' := acc + [p.value.value];
      if rest[0].value == ListClose {
        CloseConsumed(s, rest, ListClose);
      } else {
        ListItemsCloses(rest, acc');
        SuffixTrans(r.value.rest, rest, s);
        ConsumedTrans(s, rest, r.value.rest, ListClose);
        assert r.value.value.items[..|acc|] == r.value.value.items[..|acc'|][..|acc|];
      }
    }
  }

  // ---------------------------------------------------------------------
  // Round trip against a reference writer
  // ---------------------------------------------------------------------

  /** The kind of token that carries a scalar payload. */
  function ScalarKind(a: Atom): TK
  {
    match a
    case StrVal(_) => Str
    case BoolVal(_) => Bool
    case IntVal(_) => Int
    case FloatVal(_) => Float
    case NoneVal => Null
  }

  /** The token stream a value is written as: `{`, then key and value per
      entry, then `}`; `[`, then the items, then `]`; one token per scalar. */
  function Emit(v: Value): seq<Token>
    decreases v
  {
    match v
    case Scalar(a) => [Token(ScalarKind(a), a)]
    case List(items) => [Syn('[')] + EmitItems(items) + [Syn(']')]
    case Map(entries) => [Syn('{')] + EmitEntries(entries) + [Syn('}')]
  }

  function EmitItems(items: seq<Value>): seq<Token>
    decreases items
  {
    if items == [] then [] else Emit(items[0]) + EmitItems(items[1..])
  }

  function EmitEntries(entries: seq<Entry>): seq<Token>
    decreases entries
  {
    if entries == [] then [] else EmitEntry(entries[0]) + EmitEntries(entries[1..])
  }

  function EmitEntry(e: Entry): seq<Token>
    decreases e
  {
    [Token(Key, e.key)] + Emit(e.value)
  }

  /** The values the writer can express so that the parser reads them back:
      keys are distinct, no key is the text `}`, and no scalar is the text
      `}` or `]` (the parser takes any token whose value is `}` or `]` for
      a closing delimiter, whatever its kind). */
  predicate Writable(v: Value)
    decreases v
  {
    match v
    case Scalar(a) => a != MapClose && a != ListClose
    case List(items) => forall i :: 0 <= i < |items| ==> Writable(items[i])
    case Map(entries) =>
      && DistinctKeys(entries)
      && forall i :: 0 <= i < |entries| ==> WritableEntry(entries[i])
  }

  predicate WritableEntry(e: Entry)
    decreases e
  {
    e.key != MapClose && Writable(e.value)
  }

  function Size(v: Value): nat
    decreases v
  {
    match v
    case Scalar(_) => 1
    case List(items) => 1 + ItemsSize(items)
    case Map(entries) => 1 + EntriesSize(entries)
  }

  function ItemsSize(items: seq<Value>): nat
    decreases items
  {
    if items == [] then 0 else Size(items[0]) + ItemsSize(items[1..])
  }

  function EntriesSize(entries: seq<Entry>): nat
    decreases entries
  {
    if entries == [] then 0 else EntrySize(entries[0]) + EntriesSize(entries[1..])
  }

  function EntrySize(e: Entry): nat
    decreases e
  {
    Size(e.value)
  }

  /** A written value never starts with a key or a closing delimiter. */
  lemma EmitStart(v: Value)
    requires Writable(v)
    ensures |Emit(v)| > 0 && Emit(v)[0].kind != Key
    ensures Emit(v)[0].value != MapClose && Emit(v)[0].value != ListClose
  {
  }

  /** `parse` reads back every writable value, and consumes exactly its
      tokens. A scalar and the empty map need one token after them, because
      `parse` and `parse_map` look one token ahead before they return. */
  lemma {:induction false} RoundTrip(v: Value, rest: seq<Token>)
    requires Writable(v)
    requires (v.Scalar? || v == Map([])) ==> rest != []
    decreases Size(v), 2
    ensures Parse(Emit(v) + rest, false) == Ok(Parsed(v, rest))
  {
    match v
    case Scalar(a) =>
      assert (Emit(v) + rest)[1..] == rest;
    case List(items) =>
      ListRoundTrip(items, rest);
    case Map(entries) =>
      MapRoundTrip(entries, rest);
  }

  lemma {:induction false} ListRoundTrip(items: seq<Value>, rest: seq<Token>)
    requires Writable(List(items))
    decreases Size(List(items)), 1
    ensures Parse(Emit(List(items)) + rest, false) == Ok(Parsed(List(items), rest))
  {
    var s := Emit(List(items)) + rest;
    var tail := EmitItems(items) + [Syn(']')] + rest;
    assert s == [Syn('[')] + tail;
    assert s[1..] == tail;
    if items == [] {
      assert tail[1..] == rest;
    } else {
      EmitStart(items[0]);
      assert tail[0] == Emit(items[0])[0];
      ItemsRoundTrip(items, [], rest);
      assert [] + items == items;
    }
  }

  lemma {:induction false} MapRoundTrip(entries: seq<Entry>, rest: seq<Token>)
    requires Writable(Map(entries))
    requires entries == [] ==> rest != []
    decreases Size(Map(entries)), 1
    ensures Parse(Emit(Map(entries)) + rest, false) == Ok(Parsed(Map(entries), rest))
  {
    var s := Emit(Map(entries)) + rest;
    var tail := EmitEntries(entries) + [Syn('}')] + rest;
    assert s == [Syn('{')] + tail;
    assert s[1..] == tail;
    if entries == [] {
      assert tail[1..] == rest;
    } else {
      assert WritableEntry(entries[0]);
      EmitStart(entries[0].value);
      assert EmitEntries(entries) == [Token(Key, entries[0].key)] + Emit(entries[0].value) + EmitEntries(entries[1..]);
      assert tail[0] == Token(Key, entries[0].key);
      assert tail[1] == Emit(entries[0].value)[0];
      EntriesRoundTrip(entries, [], tail[1], rest);
      assert [] + entries == entries;
    }
  }

  /** One round of the `parse_list` loop once the item in front is parsed. */
  lemma ListItemsStep(s: seq<Token>, acc: seq<Value>, v: Value, tail: seq<Token>)
    requires Parse(s, false) == Ok(Parsed(v, tail)) && tail != []
    ensures tail[0].value == ListClose ==> ListItems(s, acc) == Ok(Parsed(List(acc + [v]), tail[1..]))
    ensures tail[0].value != ListClose && tail[0].kind != Key ==> ListItems(s, acc) == ListItems(tail, acc + [v])
    ensures tail[0].value != ListClose && tail[0].kind == Key ==> ListItems(s, acc) == Err(KeyInList)
  {
  }

  lemma {:induction false} ItemsRoundTrip(items: seq<Value>, acc: seq<Value>, rest: seq<Token>)
    requires items != [] && forall i :: 0 <= i < |items| ==> Writable(items[i])
    decreases ItemsSize(items), 3
    ensures ListItems(EmitItems(items) + [Syn(']')] + rest, acc) == Ok(Parsed(List(acc + items), rest))
  {
    var tail := EmitItems(items[1..]) + [Syn(']')] + rest;
    assert EmitItems(items) + [Syn(']')] + rest == Emit(items[0]) + tail;
    RoundTrip(items[0], tail);
    ListItemsStep(Emit(items[0]) + tail, acc, items[0], tail);
    if |items| == 1 {
      assert tail[1..] == rest;
      assert acc + [items[0]] == acc + items;
    } else {
      EmitStart(items[1]);
      assert tail[0] == Emit(items[1])[0];
      assert Size(items[0]) >= 1;
      ItemsRoundTrip(items[1..], acc + [items[0]], rest);
      assert acc + [items[0]] + items[1..] == acc + items;
    }
  }

  /** One round of the `parse_map` loop once the value after the key `k`
      is parsed. */
  lemma MapEntriesStep(s: seq<Token>, acc: seq<Entry>, nextUsu: Token, k: Atom, v: Value, tail: seq<Token>)
    requires |s| > 0 && s[0] == Token(Key, k) && nextUsu.kind != Key && !HasKey(acc, k)
    requires Parse(s[1..], false) == Ok(Parsed(v, tail)) && tail != []
    ensures tail[0].value == MapClose ==> MapEntries(s, acc, nextUsu) == Ok(Parsed(Map(acc + [Entry(k, v)]), tail[1..]))
    ensures tail[0].value != MapClose ==> MapEntries(s, acc, nextUsu) == MapEntries(tail, acc + [Entry(k, v)], nextUsu)
  {
  }

  /** The refusals of the `parse_map` loop: a token that is not a key where
      a key belongs, a key right after the first key (the only place the
      missing-value check looks), and a key already in the dict, which is
      refused and never overwritten. */
  lemma MapEntriesRefusals(s: seq<Token>, acc: seq<Entry>, nextUsu: Token)
    requires |s| > 0
    ensures s[0].kind != Key ==> MapEntries(s, acc, nextUsu) == Err(ExpectedKey)
    ensures s[0].kind == Key && nextUsu.kind == Key ==> MapEntries(s, acc, nextUsu) == Err(MissingValue)
    ensures s[0].kind == Key && nextUsu.kind != Key && Parse(s[1..], false).Ok? && HasKey(acc, s[0].value) ==>
      MapEntries(s, acc, nextUsu) == Err(DuplicateKey)
  {
  }

  /** `}` right after `{` is the empty map, and the `}` is dropped; even
      then `parse_map` needs a second token to be there. */
  lemma EmptyMap(s: seq<Token>)
    ensures |s| < 2 ==> ParseMap(s) == Err(IndexOutOfRange)
    ensures |s| >= 2 && s[0].value == MapClose ==> ParseMap(s) == Ok(Parsed(Map([]), s[1..]))
  {
  }

  /** `]` right after `[` is the empty list, and the `]` is dropped. */
  lemma EmptyList(s: seq<Token>)
    ensures s == [] ==> ParseList(s) == Err(IndexOutOfRange)
    ensures |s| >= 1 && s[0].value == ListClose ==> ParseList(s) == Ok(Parsed(List([]), s[1..]))
  {
  }

  /** The first key of `entries` is not among the keys of `acc`. */
  lemma FreshKey(acc: seq<Entry>, entries: seq<Entry>)
    requires entries != [] && DistinctKeys(acc + entries)
    ensures !HasKey(acc, entries[0].key)
  {
    forall i | 0 <= i < |acc| ensures acc[i].key != entries[0].key {
      assert (acc + entries)[i] == acc[i] && (acc + entries)[|acc|] == entries[0];
    }
  }

  /** Regrouping a token in front of three pieces. */
  lemma Regroup<T>(x: T, b: seq<T>, c: seq<T>, t: seq<T>)
    ensures ([x] + b + c) + t == [x] + (b + (c + t))
    ensures (([x] + b + c) + t)[0] == x && (([x] + b + c) + t)[1..] == b + (c + t)
  {
    assert ([x] + b + c) + t == [x] + (b + (c + t));
  }

  /** How the written entries split at the first one: its key token, its
      value's tokens, then the tokens of the entries after it. */
  lemma EntriesFront(entries: seq<Entry>, tail: seq<Token>)
    requires entries != []
    ensures var s := EmitEntries(entries) + tail;
      && |s| > 0 && s[0] == Token(Key, entries[0].key)
      && s[1..] == Emit(entries[0].value) + (EmitEntries(entries[1..]) + tail)
  {
    var e := entries[0];
    assert EmitEntries(entries) == [Token(Key, e.key)] + Emit(e.value) + EmitEntries(entries[1..]);
    Regroup(Token(Key, e.key), Emit(e.value), EmitEntries(entries[1..]), tail);
  }

  /** What follows the first written entry: the `}` when it was the only
      one, the key of the second entry otherwise. */
  lemma EntriesNext(entries: seq<Entry>, rest: seq<Token>)
    requires entries != []
    ensures var tail := EmitEntries(entries[1..]) + [Syn('}')] + rest;
      && (|entries| == 1 ==> tail[0] == Syn('}') && tail[1..] == rest)
      && (|entries| > 1 ==> tail[0] == Token(Key, entries[1].key))
  {
    if |entries| == 1 {
      assert EmitEntries(entries[1..]) + [Syn('}')] + rest == [Syn('}')] + rest;
    } else {
      EntriesFront(entries[1..], [Syn('}')] + rest);
      assert EmitEntries(entries[1..]) + [Syn('}')] + rest == EmitEntries(entries[1..]) + ([Syn('}')] + rest);
    }
  }

  lemma {:induction false} EntriesRoundTrip(entries: seq<Entry>, acc: seq<Entry>, nextUsu: Token, rest: seq<Token>)
    requires entries != [] && DistinctKeys(acc + entries)
    requires forall i :: 0 <= i < |entries| ==> WritableEntry(entries[i])
    requires nextUsu.kind != Key
    decreases EntriesSize(entries), 3
    ensures MapEntries(EmitEntries(entries) + [Syn('}')] + rest, acc, nextUsu) == Ok(Parsed(Map(acc + entries), rest))
  {
    var e := entries[0];
    assert WritableEntry(e);
    var tail := EmitEntries(entries[1..]) + [Syn('}')] + rest;
    var s := EmitEntries(entries) + [Syn('}')] + rest;
    EntriesFront(entries, [Syn('}')] + rest);
    assert s == EmitEntries(entries) + ([Syn('}')] + rest);
    assert EmitEntries(entries[1..]) + ([Syn('}')] + rest) == tail;
    EntriesNext(entries, rest);
    assert EntriesSize(entries) == Size(e.value) + EntriesSize(entries[1..]);
    RoundTrip(e.value, tail);
    FreshKey(acc, entries);
    MapEntriesStep(s, acc, nextUsu, e.key, e.value, tail);
    if |entries| == 1 {
      assert acc + [e] == acc + entries;
    } else {
      assert acc + [e] + entries[1..] == acc + entries;
      assert Size(e.value) >= 1;
      EntriesRoundTrip(entries[1..], acc + [e], nextUsu, rest);
    }
  }

  /** A written non-empty map or any written list is a whole document: the
      root check passes and no token is left over. */
  lemma DocumentRoundTrip(v: Value)
    requires Writable(v) && (v.Map? || v.List?) && v != Map([])
    ensures Parse(Emit(v), true) == Ok(Parsed(v, []))
  {
    RoundTrip(v, []);
    assert Emit(v) + [] == Emit(v);
  }

  // ---------------------------------------------------------------------
  // The document root and the dispatch of `parse`
  // ---------------------------------------------------------------------

  /** With `root` set, a document must start with a token whose value is
      `{` or `[`; what comes back is a map, a list, or, when that first
      token was a string `{` or `[` rather than a delimiter, that string. */
  lemma RootShape(s: seq<Token>)
    ensures var r := Parse(s, true); r.Ok? ==>
      && (s[0].value == MapOpen || s[0].value == ListOpen)
      && (r.value.value.Map? || r.value.value.List? || r.value.value == Scalar(s[0].value))
  {
    if |s| >= 2 {
      ParseMapCloses(s[1..]);
      ParseListCloses(s[1..]);
    }
  }

  /** A `}` where a value should start is refused; a scalar token is taken
      as the value with exactly one token consumed, as long as some token
      follows it (`parse` reads `tokens[0]` after the pop). */
  lemma ParseFront(s: seq<Token>, root: bool)
    requires |s| > 0
    ensures s[0].value == MapClose ==> Parse(s, root) == Err(UnexpectedClose)
    ensures s[0].value != MapClose && |s| == 1 ==> Parse(s, root) == Err(IndexOutOfRange)
    ensures s[0].value != MapClose && |s| >= 2 && !root && s[0].kind !in {Key, Syntax} ==>
      Parse(s, root) == Ok(Parsed(Scalar(s[0].value), s[1..]))
  {
  }

  // ---------------------------------------------------------------------
  // Documents from the test suite, as token streams
  // ---------------------------------------------------------------------

  function KeyTok(name: string): Token { Token(Key, StrVal(name)) }
  function StrTok(text: string): Token { Token(Str, StrVal(text)) }

  /** `{:key value :key value}` is refused: the second `:key` is a duplicate. */
  lemma DuplicateKeyRejected()
    ensures Parse([Syn('{'), KeyTok("key"), StrTok("value"), KeyTok("key"), StrTok("value"), Syn('}')], true)
         == Err(DuplicateKey)
  {
    var s := [Syn('{'), KeyTok("key"), StrTok("value"), KeyTok("key"), StrTok("value"), Syn('}')];
    assert s[1..][1..] == s[2..];
    assert s[2..][1..] == s[3..];
    assert s[3..][1..] == s[4..];
    var acc := [Entry(StrVal("key"), Scalar(StrVal("value")))];
    assert acc[0].key == StrVal("key");
    assert Parse(s[4..], false) == Ok(Parsed(Scalar(StrVal("value")), s[5..]));
    assert MapEntries(s[3..], acc, s[2]) == Err(DuplicateKey);
    assert Parse(s[2..], false) == Ok(Parsed(Scalar(StrVal("value")), s[3..]));
    assert s[1..][0] == KeyTok("key") && s[3..][0] == KeyTok("key");
    assert [] + [Entry(StrVal("key"), Scalar(StrVal("value")))] == acc;
    assert MapEntries(s[1..], [], s[2]) == MapEntries(s[3..], acc, s[2]);
  }

  /** `[entry1 entry2 :a-key]` is refused: a key stands between list items. */
  lemma KeyInListRejected()
    ensures Parse([Syn('['), StrTok("entry1"), StrTok("entry2"), KeyTok("a-key"), Syn(']')], true)
         == Err(KeyInList)
  {
    var s := [Syn('['), StrTok("entry1"), StrTok("entry2"), KeyTok("a-key"), Syn(']')];
    assert s[1..][1..] == s[2..];
    assert s[2..][1..] == s[3..];
  }

  /** `{:a :b 1}`: a key right after the first key is a missing value. */
  lemma MissingValueRejected()
    ensures Parse([Syn('{'), KeyTok("a"), KeyTok("b"), Token(Int, IntVal(1)), Syn('}')], true)
         == Err(MissingValue)
  {
  }

  /** `{:a 1 :b :c 2}`: the missing value of `b` is not reported as such,
      because `parse_map` only ever compares the token after the FIRST key;
      `:c 2 }` is read as a list that the `}` then breaks. */
  lemma MissingValueOnlyForFirstKey()
    ensures Parse([Syn('{'), KeyTok("a"), Token(Int, IntVal(1)), KeyTok("b"), KeyTok("c"),
                   Token(Int, IntVal(2)), Syn('}')], true)
         == Err(UnexpectedClose)
  {
    var s := [Syn('{'), KeyTok("a"), Token(Int, IntVal(1)), KeyTok("b"), KeyTok("c"),
              Token(Int, IntVal(2)), Syn('}')];
    assert s[1..][1..] == s[2..];
    assert s[2..][1..] == s[3..];
    assert s[3..][1..] == s[4..];
    assert s[4..][1..] == s[5..];
    assert s[5..][1..] == s[6..];
    assert Parse(s[6..], false) == Err(UnexpectedClose);
    assert ListItems(s[6..], [Scalar(IntVal(2))]) == Err(UnexpectedClose);
    assert Parse(s[5..], false) == Ok(Parsed(Scalar(IntVal(2)), s[6..]));
    assert [] + [Scalar(IntVal(2))] == [Scalar(IntVal(2))];
    assert ListItems(s[5..], []) == Err(UnexpectedClose);
    assert Parse(s[4..], false) == Err(UnexpectedClose);
    var acc := [Entry(StrVal("a"), Scalar(IntVal(1)))];
    assert MapEntries(s[3..], acc, s[2]) == Err(UnexpectedClose);
    assert !HasKey([], StrVal("a"));
    assert Parse(s[2..], false) == Ok(Parsed(Scalar(IntVal(1)), s[3..]));
    assert [] + [Entry(StrVal("a"), Scalar(IntVal(1)))] == acc;
  }

  /** `{}` alone is not a document, because `parse_map` reads the token after
      the `}` before it returns; nested as in `{:empty-map {}}` it is fine. */
  lemma EmptyMapNeedsLookahead()
    ensures Parse([Syn('{'), Syn('}')], true) == Err(IndexOutOfRange)
    ensures Parse([Syn('{'), KeyTok("empty-map"), Syn('{'), Syn('}'), Syn('}')], true)
         == Ok(Parsed(Map([Entry(StrVal("empty-map"), Map([]))]), []))
  {
    var s := [Syn('{'), KeyTok("empty-map"), Syn('{'), Syn('}'), Syn('}')];
    assert s[1..][1..] == s[2..];
    assert s[2..][1..] == s[3..];
    assert s[3..][1..] == s[4..];
    assert !HasKey([], StrVal("empty-map"));
    assert Parse(s[2..], false) == Ok(Parsed(Map([]), s[4..]));
    assert s[1..][0] == KeyTok("empty-map") && s[4..][0] == Syn('}') && s[4..][1..] == [];
    assert [] + [Entry(StrVal("empty-map"), Map([]))] == [Entry(StrVal("empty-map"), Map([]))];
    assert MapEntries(s[1..], [], s[2]) == Ok(Parsed(Map([Entry(StrVal("empty-map"), Map([]))]), []));
  }
}
