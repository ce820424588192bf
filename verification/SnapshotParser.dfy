/** The producer that streams deals off the market snapshot, and exactly which inputs it lets pass. */
module SnapshotParser {
  import opened Wrappers
  import opened Deals
  import opened JsonStream

  /** One message on the results channel. */
  datatype DealResult = Received(key: string, deal: Deal) | Failed(key: string)

  predicate Clean(results: seq<DealResult>) {
    forall r :: r in results ==> r.Received?
  }

  /* ----- The producer ----- */

  /** The next deal's identifier; the empty one stands for the closing brace. None is an error. */
  function ReadKey(input: Input, d: Decoder): (r: (Option<string>, Decoder))
    requires d.Valid(input)
    ensures r.1.Valid(input)
    ensures r.0.Some? ==> r.1.pos > d.pos
  {
    var (token, d1) := NextToken(input, d);
    var key := match token
      case Tok(Text(text)) => Some(text)
      case Tok(Close(RBrace)) => Some("")
      case _ => None;
    (key, d1)
  }

  /** What the loop sends from decoder state d on. */
  function Stream(input: Input, d: Decoder): seq<DealResult>
    requires d.Valid(input)
    decreases |input.lexemes| - d.pos
  {
    var (key, d1) := ReadKey(input, d);
    if key == None then [Failed("")]
    else if key.value == "" then
      if NextToken(input, d1).0 == Eof then [] else [Failed("")]
    else
      var (deal, d2) := DecodeDeal(input, d1);
      if deal == None then [Failed(key.value)]
      else [Received(key.value, deal.value)] + Stream(input, d2)
  }

  function Snapshot(input: Input): seq<DealResult> {
    var (token, d) := NextToken(input, FRESH);
    if token.Tok? && (token.token.Open? || token.token.Close?) then Stream(input, d) else [Failed("")]
  }

  /** The producer goroutine: everything it sends before it closes the channel. */
  method StateMarketDealsViaS3Snapshot(input: Input) returns (results: seq<DealResult>)
    ensures results == Snapshot(input)
  {
    results := [];
    var (token, d) := NextToken(input, FRESH);
    if !(token.Tok? && (token.token.Open? || token.token.Close?)) {
      results := results + [Failed("")];
      return;
    }
    while true
      invariant d.Valid(input)
      invariant results + Stream(input, d) == Snapshot(input)
      decreases |input.lexemes| - d.pos
    {
      var (key, d1) := ReadKey(input, d);
      if key == None {
        results := results + [Failed("")];
        return;
      }
      if key.value == "" {
        var (end, _) := NextToken(input, d1);
        if end != Eof {
          results := results + [Failed("")];
        }
        return;
      }
      var (deal, d2) := DecodeDeal(input, d1);
      if deal == None {
        results := results + [Failed(key.value)];
        return;
      }
      results := results + [Received(key.value, deal.value)];
      d := d2;
    }
  }

  /* ----- The documents it is written for ----- */

  datatype Entry = Entry(key: string, value: seq<Lexeme>)

  /** A container's bracket, and what stands between a key and its deal in it. An array whose
      elements alternate reads just like an object, until it closes. */
  datatype Shape = Object | Array {
    function Opening(): Lexeme {
      if this == Object then LBrace else LBrack
    }

    function Between(): Lexeme {
      if this == Object then Colon else Comma
    }

    /** The decoder's state where the loop looks for a key. */
    function AtKey(first: bool): TokenState {
      match this
      case Object => if first then ObjectStart else ObjectComma
      case Array => if first then ArrayStart else ArrayComma
    }
  }

  predicate Good(input: Input, entries: seq<Entry>) {
    forall en :: en in entries ==> en.key != "" && IsValue(en.value) && input.unmarshal(en.value).Some?
  }

  function Separator(first: bool): seq<Lexeme> {
    if first then [] else [Comma]
  }

  /** The text of the entries; first says that nothing precedes them in the container. */
  function Render(entries: seq<Entry>, shape: Shape, first: bool): seq<Lexeme> {
    if entries == [] then []
    else
      EntryText(entries[0], shape, first) + Render(entries[1..], shape, false)
  }

  function EntryText(en: Entry, shape: Shape, first: bool): seq<Lexeme> {
    Separator(first) + [Str(en.key), shape.Between()] + en.value
  }

  function Results(input: Input, entries: seq<Entry>): (r: seq<DealResult>)
    requires Good(input, entries)
    ensures Clean(r) && |r| == |entries|
  {
    seq(|entries|, i requires 0 <= i < |entries| =>
      assert entries[i] in entries;
      Received(entries[i].key, input.unmarshal(entries[i].value).value))
  }

  /** An object of decodable deals under non-empty keys, then the end of the input. */
  predicate Complete(input: Input, entries: seq<Entry>) {
    && !input.faulty
    && Good(input, entries)
    && input.lexemes == [LBrace] + Render(entries, Object, true) + [RBrace]
  }

  /** The two ways for a text to stop short at an empty key, right after it or after the separator. */
  predicate StopsShort(tail: seq<Lexeme>, shape: Shape, first: bool) {
    || tail == Separator(first) + [Str("")]
    || tail == Separator(first) + [Str(""), shape.Between()]
  }

  /** An object, or an array of alternating keys and deals, that ends where an empty key is due a deal. */
  predicate CutAtEmptyKey(input: Input, entries: seq<Entry>, shape: Shape) {
    && !input.faulty
    && Good(input, entries)
    && var body := [shape.Opening()] + Render(entries, shape, true);
       body <= input.lexemes && StopsShort(input.lexemes[|body|..], shape, entries == [])
  }

  /* ----- The loop against the texts ----- */

  /** d is where the loop looks for a key, inside one container. */
  predicate AtHead(input: Input, d: Decoder, shape: Shape, first: bool) {
    d.Valid(input) && d.stack == [TopValue] && d.state == shape.AtKey(first)
  }

  predicate Ends(tail: seq<Lexeme>, shape: Shape, first: bool) {
    (shape == Object && tail == [RBrace]) || StopsShort(tail, shape, first)
  }

  /** The key that the loop finds at its head, read off the text. */
  lemma KeyAtHead(input: Input, d: Decoder, shape: Shape, first: bool)
    requires AtHead(input, d, shape, first)
    ensures
      var tail, k := input.lexemes[d.pos..], |Separator(first)|;
      var (key, d1) := ReadKey(input, d);
      if shape == Object && |tail| > 0 && tail[0] == RBrace then
        key == Some("") && d1 == Decoder(d.pos + 1, TopValue, [])
      else if |tail| > k && Separator(first) <= tail && tail[k].Str? then
        key == Some(tail[k].text) && d1 == Decoder(d.pos + k + 1, if shape == Object then ObjectColon else ArrayComma, d.stack)
      else
        key == None
  {
    var tail := input.lexemes[d.pos..];
    if |tail| > 0 && tail[0] == Comma && !first {
      var d1 := d.Skip(if shape == Object then ObjectKey else ArrayValue);
      assert NextToken(input, d) == NextToken(input, d1);
    }
  }

  /** What follows a key there: the due separator and a value. */
  lemma DealAfterKey(input: Input, d: Decoder, shape: Shape)
    requires d.Valid(input) && d.stack == [TopValue]
    requires d.state == if shape == Object then ObjectColon else ArrayComma
    ensures
      var tail := input.lexemes[d.pos..];
      var (deal, d2) := DecodeDeal(input, d);
      if |tail| > 0 && tail[0] == shape.Between() && ReadValue(tail[1..]).Some? then
        var n := ReadValue(tail[1..]).value;
        && deal == input.unmarshal(tail[1..][..n])
        && d2 == Decoder(d.pos + 1 + n, shape.AtKey(false), d.stack)
      else
        deal == None
  {
    var tail := input.lexemes[d.pos..];
    if |tail| > 0 {
      assert tail[1..] == input.lexemes[d.pos + 1..];
    }
  }

  /** The loop ends in silence exactly at a closing brace or an empty key with nothing more to come. */
  lemma SilentEnd(input: Input, d: Decoder, shape: Shape, first: bool)
    requires AtHead(input, d, shape, first)
    ensures Stream(input, d) == [] <==> !input.faulty && Ends(input.lexemes[d.pos..], shape, first)
  {
    hide NextToken, ReadKey, DecodeDeal, ReadValue;
    KeyAtHead(input, d, shape, first);
    var tail, k := input.lexemes[d.pos..], |Separator(first)|;
    var (key, d1) := ReadKey(input, d);
    if key == Some("") {
      if d1.state == TopValue {
        EofAtTop(input, d1);
      }
      var more := input.lexemes[d1.pos..];
      if d1.state == TopValue {
        assert tail == [RBrace] + more;
      } else {
        assert tail[..k] == Separator(first);
        assert tail == Separator(first) + [Str("")] + more;
        EofAfterEmptyKey(input, d1, shape);
        if tail == Separator(first) + [Str(""), shape.Between()] {
          assert more == tail[k + 1..] == [shape.Between()];
        }
      }
    }
  }

  lemma EofAtTop(input: Input, d: Decoder)
    requires d.Valid(input) && d.state == TopValue
    ensures NextToken(input, d).0 == Eof <==> !input.faulty && input.lexemes[d.pos..] == []
  {
  }

  lemma EofAfterEmptyKey(input: Input, d: Decoder, shape: Shape)
    requires d.Valid(input) && d.stack == [TopValue]
    requires d.state == if shape == Object then ObjectColon else ArrayComma
    ensures NextToken(input, d).0 == Eof <==>
              !input.faulty && (input.lexemes[d.pos..] == [] || input.lexemes[d.pos..] == [shape.Between()])
  {
    var tail := input.lexemes[d.pos..];
    if |tail| > 0 && tail[0] == shape.Between() {
      var d1 := d.Skip(if shape == Object then ObjectValue else ArrayValue);
      assert NextToken(input, d) == NextToken(input, d1);
      EofBeforeValue(input, d1);
      hide NextToken;
      assert |input.lexemes[d1.pos..]| == |tail| - 1;
    }
  }

  lemma EofBeforeValue(input: Input, d: Decoder)
    requires d.Valid(input) && (d.state == ObjectValue || d.state == ArrayValue)
    ensures NextToken(input, d).0 == Eof <==> !input.faulty && input.lexemes[d.pos..] == []
  {
  }

  lemma DropFront(s: seq<Lexeme>, front: seq<Lexeme>, behind: seq<Lexeme>)
    requires s == front + behind
    ensures s[|front|..] == behind && s[..|front|] == front && forall i :: 0 <= i < |front| ==> s[i] == front[i]
  {
  }

  lemma DropDrop(s: seq<Lexeme>, i: nat, k: nat)
    requires i + k <= |s|
    ensures s[i..][k..] == s[i + k..]
  {
  }

  /** Forwards over a key: where the text has it, the loop reads it and goes on behind it. */
  lemma KeyForwards(input: Input, d: Decoder, shape: Shape, first: bool, key: string, behind: seq<Lexeme>) returns (d': Decoder)
    requires AtHead(input, d, shape, first)
    requires input.lexemes[d.pos..] == Separator(first) + [Str(key)] + behind
    ensures ReadKey(input, d) == (Some(key), d') && AtBetween(input, d', shape) && input.lexemes[d'.pos..] == behind
  {
    hide ReadKey, NextToken;
    var tail, k := input.lexemes[d.pos..], |Separator(first)|;
    KeyAtHead(input, d, shape, first);
    DropFront(tail, Separator(first) + [Str(key)], behind);
    d' := ReadKey(input, d).1;
    DropDrop(input.lexemes, d.pos, k + 1);
  }

  /** d is behind a key, inside one container. */
  predicate AtBetween(input: Input, d: Decoder, shape: Shape) {
    d.Valid(input) && d.stack == [TopValue] && d.state == if shape == Object then ObjectColon else ArrayComma
  }

  /** Backwards over a key: what the loop reads as a key, the text has there. */
  lemma KeyBackwards(input: Input, d: Decoder, shape: Shape, first: bool)
    requires AtHead(input, d, shape, first) && ReadKey(input, d).0.Some? && ReadKey(input, d).0.value != ""
    ensures
      var (key, d') := ReadKey(input, d);
      AtBetween(input, d', shape) && input.lexemes[d.pos..] == Separator(first) + [Str(key.value)] + input.lexemes[d'.pos..]
  {
    hide ReadKey, NextToken;
    var tail, k := input.lexemes[d.pos..], |Separator(first)|;
    KeyAtHead(input, d, shape, first);
    DropDrop(input.lexemes, d.pos, k + 1);
    assert tail == tail[..k] + [tail[k]] + tail[k + 1..];
  }

  /** Forwards over a deal. */
  lemma DealForwards(input: Input, d: Decoder, shape: Shape, value: seq<Lexeme>, behind: seq<Lexeme>) returns (d': Decoder)
    requires AtBetween(input, d, shape) && IsValue(value)
    requires input.lexemes[d.pos..] == [shape.Between()] + value + behind
    ensures DecodeDeal(input, d) == (input.unmarshal(value), d')
    ensures input.unmarshal(value).Some? ==> AtHead(input, d', shape, false) && input.lexemes[d'.pos..] == behind
  {
    hide DecodeDeal, ReadValue;
    var tail := input.lexemes[d.pos..];
    DropFront(tail, [shape.Between()], value + behind);
    DropFront(value + behind, value, behind);
    ReadValueLocal(value, tail[1..], |value|);
    DealAfterKey(input, d, shape);
    d' := DecodeDeal(input, d).1;
    DropDrop(input.lexemes, d.pos, 1 + |value|);
    DropFront(tail, [shape.Between()] + value, behind);
  }

  /** Backwards over a deal. */
  lemma DealBackwards(input: Input, d: Decoder, shape: Shape) returns (value: seq<Lexeme>)
    requires AtBetween(input, d, shape) && DecodeDeal(input, d).0.Some?
    ensures
      var (deal, d') := DecodeDeal(input, d);
      && IsValue(value) && deal == input.unmarshal(value)
      && AtHead(input, d', shape, false) && input.lexemes[d.pos..] == [shape.Between()] + value + input.lexemes[d'.pos..]
  {
    hide DecodeDeal, ReadValue;
    DealAfterKey(input, d, shape);
    var tail := input.lexemes[d.pos..];
    var rest := tail[1..];
    var n := ReadValue(rest).value;
    value := rest[..n];
    ReadValueLocal(rest, value, n);
    DropDrop(input.lexemes, d.pos, 1 + n);
    DropDrop(tail, 1, n);
    assert tail == [tail[0]] + (rest[..n] + rest[n..]);
  }

  /** Forwards, one round: over the text of a good entry the loop sends its result and goes on behind it. */
  lemma RoundForwards(input: Input, d: Decoder, shape: Shape, first: bool, en: Entry, more: seq<Lexeme>)
      returns (d': Decoder)
    requires AtHead(input, d, shape, first) && Good(input, [en])
    requires input.lexemes[d.pos..] == EntryText(en, shape, first) + more
    ensures AtHead(input, d', shape, false) && input.lexemes[d'.pos..] == more
    ensures Stream(input, d) == Results(input, [en]) + Stream(input, d')
  {
    assert en in [en];
    var behind := [shape.Between()] + en.value + more;
    assert EntryText(en, shape, first) + more == Separator(first) + [Str(en.key)] + behind;
    hide *;
    var d1 := KeyForwards(input, d, shape, first, en.key, behind);
    d' := DealForwards(input, d1, shape, en.value, more);
    GoesOn(input, d, d1, d', en);
  }

  /** Backwards, one round: when the loop goes on, it has read the text of a good entry. */
  lemma RoundBackwards(input: Input, d: Decoder, shape: Shape, first: bool) returns (en: Entry, d': Decoder)
    requires AtHead(input, d, shape, first)
    requires !Stops(input, d)
    ensures d'.pos > d.pos && AtHead(input, d', shape, false) && Good(input, [en])
    ensures input.lexemes[d.pos..] == EntryText(en, shape, first) + input.lexemes[d'.pos..]
    ensures Stream(input, d) == Results(input, [en]) + Stream(input, d')
  {
    hide Stream, ReadKey, NextToken, DecodeDeal, ReadValue, Results, Separator, IsValue;
    var (key, d1) := ReadKey(input, d);
    KeyBackwards(input, d, shape, first);
    var value := DealBackwards(input, d1, shape);
    en, d' := Entry(key.value, value), DecodeDeal(input, d1).1;
    TextOfEntry(en, shape, first, input.lexemes[d'.pos..]);
    GoesOn(input, d, d1, d', en);
  }

  lemma TextOfEntry(en: Entry, shape: Shape, first: bool, more: seq<Lexeme>)
    ensures Separator(first) + [Str(en.key)] + ([shape.Between()] + en.value + more) == EntryText(en, shape, first) + more
  {
  }

  lemma GoesOn(input: Input, d: Decoder, d1: Decoder, d': Decoder, en: Entry)
    requires d.Valid(input) && d1.Valid(input) && d'.Valid(input) && Good(input, [en])
    requires ReadKey(input, d) == (Some(en.key), d1) && DecodeDeal(input, d1) == (input.unmarshal(en.value), d')
    ensures Stream(input, d) == Results(input, [en]) + Stream(input, d')
  {
    assert en in [en];
    ResultsOne(input, en);
    hide *;
    StreamStep(input, d, d1, d', en.key, input.unmarshal(en.value).value);
  }

  lemma StreamStep(input: Input, d: Decoder, d1: Decoder, d': Decoder, key: string, deal: Deal)
    requires d.Valid(input) && d1.Valid(input) && d'.Valid(input) && key != ""
    requires ReadKey(input, d) == (Some(key), d1) && DecodeDeal(input, d1) == (Some(deal), d')
    ensures Stream(input, d) == [Received(key, deal)] + Stream(input, d')
  {
    hide ReadKey, NextToken, DecodeDeal;
  }

  lemma ResultsOne(input: Input, en: Entry)
    requires Good(input, [en])
    ensures en in [en] && Results(input, [en]) == [Received(en.key, input.unmarshal(en.value).value)]
  {
    assert en in [en];
  }

  /** Forwards: over the text of good entries the loop sends their results and goes on behind them. */
  lemma {:induction false} StreamEntries(input: Input, d: Decoder, shape: Shape, first: bool, entries: seq<Entry>, more: seq<Lexeme>)
      returns (d': Decoder)
    requires AtHead(input, d, shape, first) && Good(input, entries)
    requires input.lexemes[d.pos..] == Render(entries, shape, first) + more
    ensures AtHead(input, d', shape, first && entries == []) && input.lexemes[d'.pos..] == more
    ensures Stream(input, d) == Results(input, entries) + Stream(input, d')
    decreases |entries|
  {
    hide Stream, ReadKey, NextToken, DecodeDeal, ReadValue;
    if entries == [] {
      d' := d;
    } else {
      var behind := Render(entries[1..], shape, false) + more;
      assert input.lexemes[d.pos..] == EntryText(entries[0], shape, first) + behind;
      assert entries[0] in entries;
      var d1 := RoundForwards(input, d, shape, first, entries[0], behind);
      d' := StreamEntries(input, d1, shape, false, entries[1..], more);
      assert entries == [entries[0]] + entries[1..];
      ResultsAppend(input, [entries[0]], entries[1..]);
    }
  }

  lemma RenderCons(en: Entry, more: seq<Entry>, shape: Shape, first: bool)
    ensures Render([en] + more, shape, first) == EntryText(en, shape, first) + Render(more, shape, false)
  {
    assert ([en] + more)[1..] == more;
  }

  lemma ResultsAppend(input: Input, xs: seq<Entry>, ys: seq<Entry>)
    requires Good(input, xs) && Good(input, ys)
    ensures Good(input, xs + ys) && Results(input, xs + ys) == Results(input, xs) + Results(input, ys)
  {
  }

  /** The loop is in its last round. */
  predicate Stops(input: Input, d: Decoder)
    requires d.Valid(input)
  {
    var (key, d1) := ReadKey(input, d);
    key == None || key.value == "" || DecodeDeal(input, d1).0 == None
  }

  /** Backwards: whatever the loop sends are the results of good entries that the text begins with,
      and then nothing or one failure. */
  lemma {:induction false} StreamParses(input: Input, d: Decoder, shape: Shape, first: bool)
      returns (entries: seq<Entry>, d': Decoder)
    requires AtHead(input, d, shape, first)
    ensures Good(input, entries) && AtHead(input, d', shape, first && entries == [])
    ensures input.lexemes[d.pos..] == Render(entries, shape, first) + input.lexemes[d'.pos..]
    ensures Stream(input, d) == Results(input, entries) + Stream(input, d')
    ensures Stream(input, d') == LastMessage(input, input.lexemes[d'.pos..], shape, first && entries == [])
    decreases |input.lexemes| - d.pos
  {
    hide ReadKey, NextToken, DecodeDeal, ReadValue, Stream;
    if Stops(input, d) {
      entries, d' := [], d;
      LastRoundExactly(input, d, shape, first);
    } else {
      var en, d1 := RoundBackwards(input, d, shape, first);
      var more;
      more, d' := StreamParses(input, d1, shape, false);
      entries := [en] + more;
      RenderCons(en, more, shape, first);
      ResultsAppend(input, [en], more);
      hide Render, Results, EntryText;
    }
  }

  /* ----- Acceptance ----- */

  lemma AtContainer(input: Input, shape: Shape) returns (d: Decoder)
    requires input.lexemes != [] && input.lexemes[0] == shape.Opening()
    ensures d.pos == 1 && AtHead(input, d, shape, true) && Snapshot(input) == Stream(input, d)
  {
    d := FRESH.Push(shape.AtKey(true));
  }

  /** Every accepted text, of either kind, yields its entries in order. */
  lemma Accepts(input: Input, entries: seq<Entry>, shape: Shape)
    requires (shape == Object && Complete(input, entries)) || CutAtEmptyKey(input, entries, shape)
    ensures Good(input, entries) && Snapshot(input) == Results(input, entries)
  {
    var tail := TailOf(input, entries, shape);
    hide *;
    ContainerYields(input, entries, shape, tail);
  }

  /** How an accepted text is made up. */
  lemma TailOf(input: Input, entries: seq<Entry>, shape: Shape) returns (tail: seq<Lexeme>)
    requires (shape == Object && Complete(input, entries)) || CutAtEmptyKey(input, entries, shape)
    ensures !input.faulty && Good(input, entries) && Ends(tail, shape, entries == [])
    ensures input.lexemes == [shape.Opening()] + (Render(entries, shape, true) + tail)
  {
    hide Render, Good, Separator;
    var body := [shape.Opening()] + Render(entries, shape, true);
    tail := input.lexemes[|body|..];
    assert input.lexemes == body + tail;
    if shape == Object && Complete(input, entries) {
      assert tail == [RBrace];
    }
  }

  lemma ContainerYields(input: Input, entries: seq<Entry>, shape: Shape, tail: seq<Lexeme>)
    requires !input.faulty && Good(input, entries) && Ends(tail, shape, entries == [])
    requires input.lexemes == [shape.Opening()] + (Render(entries, shape, true) + tail)
    ensures Snapshot(input) == Results(input, entries)
  {
    DropFront(input.lexemes, [shape.Opening()], Render(entries, shape, true) + tail);
    hide Stream, Snapshot, Render, Results, NextToken, ReadKey, Good, Ends;
    var d := AtContainer(input, shape);
    var d' := StreamEntries(input, d, shape, true, entries, tail);
    SilentEnd(input, d', shape, entries == []);
  }

  lemma NotAContainer(input: Input)
    requires input.lexemes == [] || (input.lexemes[0] != LBrace && input.lexemes[0] != LBrack)
    ensures Snapshot(input) == [Failed("")]
  {
  }

  lemma EndsOfContainers(input: Input, entries: seq<Entry>, shape: Shape, tail: seq<Lexeme>)
    requires input.lexemes != [] && input.lexemes[0] == shape.Opening() && !input.faulty && Good(input, entries)
    requires input.lexemes[1..] == Render(entries, shape, true) + tail && Ends(tail, shape, entries == [])
    ensures (shape == Object && Complete(input, entries)) || CutAtEmptyKey(input, entries, shape)
  {
    hide Render;
    var body := [shape.Opening()] + Render(entries, shape, true);
    assert input.lexemes == [shape.Opening()] + input.lexemes[1..] == body + tail;
    assert input.lexemes[|body|..] == tail;
  }

  /** Only good entries are ever sent before at most one failure, the last message; and a run
      without a failure is over a complete document or over a text cut at an empty key. */
  lemma Parses(input: Input) returns (entries: seq<Entry>, shape: Shape)
    ensures Good(input, entries)
    ensures Snapshot(input) == Results(input, entries) || exists key :: Snapshot(input) == Results(input, entries) + [Failed(key)]
    ensures Clean(Snapshot(input)) ==> (shape == Object && Complete(input, entries)) || CutAtEmptyKey(input, entries, shape)
  {
    if input.lexemes == [] || (input.lexemes[0] != LBrace && input.lexemes[0] != LBrack) {
      entries, shape := [], Object;
      NotAContainer(input);
      assert Snapshot(input) == Results(input, entries) + [Failed("")];
      assert Failed("") in Snapshot(input);
    } else {
      hide Stream, ReadKey, NextToken, DecodeDeal, ReadValue, Results, Snapshot;
      shape := if input.lexemes[0] == LBrace then Object else Array;
      var d := AtContainer(input, shape);
      var d';
      entries, d' := StreamParses(input, d, shape, true);
      SilentEnd(input, d', shape, entries == []);
      if Stream(input, d') == [] {
        assert Snapshot(input) == Results(input, entries);
        EndsOfContainers(input, entries, shape, input.lexemes[d'.pos..]);
        hide Complete, CutAtEmptyKey;
      } else {
        var key :| Stream(input, d') == [Failed(key)];
        assert Snapshot(input) == Results(input, entries) + [Failed(key)];
        assert Failed(key) in Snapshot(input);
      }
    }
  }

  /** The producer closes without an error exactly over complete documents and cut ones. */
  lemma Acceptance(input: Input)
    ensures Clean(Snapshot(input)) <==>
              (exists entries :: Complete(input, entries)) || (exists entries, shape :: CutAtEmptyKey(input, entries, shape))
  {
    if Clean(Snapshot(input)) {
      var entries, shape := Parses(input);
    }
    if entries :| Complete(input, entries) {
      Accepts(input, entries, Object);
    }
    if entries, shape :| CutAtEmptyKey(input, entries, shape) {
      Accepts(input, entries, shape);
    }
  }

  /** The last thing in the input is an empty string, or one with a separator behind it. */
  predicate EndsInEmptyString(lexemes: seq<Lexeme>) {
    var n := |lexemes|;
    || (n >= 1 && lexemes[n - 1] == Str(""))
    || (n >= 2 && lexemes[n - 2] == Str("") && lexemes[n - 1] in {Colon, Comma})
  }

  /** What the producer is for, acceptance of the complete documents alone, it does for every input
      that does not end in an empty string; an accepted one that does is never complete. */
  lemma AcceptanceExact(input: Input)
    requires Clean(Snapshot(input))
    ensures (exists entries :: Complete(input, entries)) <==> !EndsInEmptyString(input.lexemes)
  {
    var entries, shape := Parses(input);
    if CutAtEmptyKey(input, entries, shape) {
      CutEnds(input, entries, shape);
    }
    forall es | Complete(input, es)
      ensures !EndsInEmptyString(input.lexemes)
    {
      CompleteEnds(input, es);
    }
    hide *;
  }

  lemma CutEnds(input: Input, entries: seq<Entry>, shape: Shape)
    requires CutAtEmptyKey(input, entries, shape)
    ensures EndsInEmptyString(input.lexemes)
  {
    hide Render, Good;
    var body := [shape.Opening()] + Render(entries, shape, true);
    var tail := input.lexemes[|body|..];
    var n, m := |input.lexemes|, |tail|;
    assert input.lexemes[n - 1] == tail[m - 1] && (m >= 2 ==> input.lexemes[n - 2] == tail[m - 2]);
  }

  lemma CompleteEnds(input: Input, entries: seq<Entry>)
    requires Complete(input, entries)
    ensures !EndsInEmptyString(input.lexemes)
  {
    hide Render, Good;
    assert input.lexemes[|input.lexemes| - 1] == RBrace;
  }

  /** Two truncated inputs that are taken for complete: an array, and an object with a deal lost. */
  lemma TruncatedInputAccepted(value: seq<Lexeme>, deal: Deal)
    requires IsValue(value)
    ensures
      var unmarshal := (v: seq<Lexeme>) => Some(deal);
      && Snapshot(Input([LBrack, Str("")], false, unmarshal)) == []
      && Snapshot(Input([LBrace, Str("1"), Colon] + value + [Comma, Str("")], false, unmarshal)) == [Received("1", deal)]
  {
    ArrayAccepted((v: seq<Lexeme>) => Some(deal));
    ObjectAccepted(value, (v: seq<Lexeme>) => Some(deal), deal);
  }

  lemma ArrayAccepted(unmarshal: seq<Lexeme> -> Option<Deal>)
    ensures Snapshot(Input([LBrack, Str("")], false, unmarshal)) == []
  {
    var input := Input([LBrack, Str("")], false, unmarshal);
    assert input.lexemes[1..] == [Str("")];
    Accepts(input, [], Array);
  }

  lemma ObjectAccepted(value: seq<Lexeme>, unmarshal: seq<Lexeme> -> Option<Deal>, deal: Deal)
    requires IsValue(value) && unmarshal(value) == Some(deal)
    ensures
      var input := Input([LBrace, Str("1"), Colon] + value + [Comma, Str("")], false, unmarshal);
      Snapshot(input) == [Received("1", deal)]
  {
    var input := Input([LBrace, Str("1"), Colon] + value + [Comma, Str("")], false, unmarshal);
    var entries := [Entry("1", value)];
    TextOfOne(entries[0]);
    hide Render, IsValue, Snapshot;
    assert input.lexemes == [LBrace] + Render(entries, Object, true) + [Comma, Str("")];
    assert input.lexemes[|[LBrace] + Render(entries, Object, true)|..] == [Comma, Str("")];
    Accepts(input, entries, Object);
  }

  lemma TextOfOne(en: Entry)
    ensures Render([en], Object, true) == [Str(en.key), Colon] + en.value
  {
    assert [en][1..] == [];
    assert EntryText(en, Object, true) + [] == [Str(en.key), Colon] + en.value;
  }

  /** No proper prefix of a complete document passes, whether the reader then ends or breaks. */
  lemma ProperPrefixFails(input: Input, entries: seq<Entry>, prefix: Input)
    requires Complete(input, entries)
    requires prefix.lexemes < input.lexemes && prefix.unmarshal == input.unmarshal
    ensures !Clean(Snapshot(prefix))
  {
    hide Stream, ReadKey, NextToken, DecodeDeal, ReadValue;
    if Clean(Snapshot(prefix)) {
      Accepts(input, entries, Object);
      var short, shape := Parses(prefix);
      var body := [shape.Opening()] + Render(short, shape, true);
      var cut := prefix.lexemes[|body|..];
      assert prefix.lexemes == body + cut;
      var tail := cut + input.lexemes[|prefix.lexemes|..];
      assert input.lexemes == body + tail;
      FailsBehind(input, short, shape, cut, tail);
    }
  }

  lemma LastRound(input: Input, d: Decoder)
    requires d.Valid(input) && ReadKey(input, d).0 == Some("")
    ensures Stream(input, d) == [] || Stream(input, d) == [Failed("")]
  {
    hide ReadKey, NextToken, DecodeDeal, ReadValue, Render, Results;
    assert Stream(input, d) == if NextToken(input, ReadKey(input, d).1).0 == Eof then [] else [Failed("")];
  }

  lemma EmptyKeyAhead(input: Input, d: Decoder, shape: Shape, first: bool, cut: seq<Lexeme>)
    requires AtHead(input, d, shape, first)
    requires Ends(cut, shape, first) && cut <= input.lexemes[d.pos..]
    ensures ReadKey(input, d).0 == Some("")
  {
    hide ReadKey, NextToken;
    assert forall i :: 0 <= i < |cut| ==> input.lexemes[d.pos..][i] == cut[i];
    assert StopsShort(cut, shape, first) ==> Separator(first) == cut[..|Separator(first)|];
    KeyAtHead(input, d, shape, first);
  }

  /** A text that goes on behind a silent end, up to a closing brace, ends in a failure. */
  lemma FailsBehind(input: Input, entries: seq<Entry>, shape: Shape, cut: seq<Lexeme>, tail: seq<Lexeme>)
    requires Good(input, entries) && Ends(cut, shape, entries == [])
    requires input.lexemes == [shape.Opening()] + Render(entries, shape, true) + tail
    requires cut < tail && tail[|tail| - 1] == RBrace
    ensures !Clean(Snapshot(input))
  {
    hide Stream, ReadKey, NextToken, DecodeDeal, ReadValue, Results, Snapshot, Render;
    var d := AtContainer(input, shape);
    assert input.lexemes[1..] == Render(entries, shape, true) + tail;
    var d' := StreamEntries(input, d, shape, true, entries, tail);
    EmptyKeyAhead(input, d', shape, entries == [], cut);
    SilentEnd(input, d', shape, entries == []);
    LastRound(input, d');
    assert Snapshot(input) == Results(input, entries) + [Failed("")];
    assert Failed("") in Snapshot(input);
  }

  /* ----- Every message ----- */

  /** The key that the text has ahead, if it has one there. */
  function KeyAhead(tail: seq<Lexeme>, first: bool): string {
    var k := |Separator(first)|;
    if |tail| > k && Separator(first) <= tail && tail[k].Str? then tail[k].text else ""
  }

  /** What is sent last, by the text that is left: nothing at a proper end, else a failure under the key ahead. */
  function LastMessage(input: Input, tail: seq<Lexeme>, shape: Shape, first: bool): seq<DealResult> {
    if !input.faulty && Ends(tail, shape, first) then [] else [Failed(KeyAhead(tail, first))]
  }

  /** No decodable deal under a non-empty key is next. */
  ghost predicate NoEntryAhead(input: Input, tail: seq<Lexeme>, shape: Shape, first: bool) {
    forall en, more :: Good(input, [en]) ==> tail != EntryText(en, shape, first) + more
  }

  lemma LastRoundExactly(input: Input, d: Decoder, shape: Shape, first: bool)
    requires AtHead(input, d, shape, first) && Stops(input, d)
    ensures Stream(input, d) == LastMessage(input, input.lexemes[d.pos..], shape, first)
  {
    SilentEnd(input, d, shape, first);
    KeyAtHead(input, d, shape, first);
    StopsUnder(input, d);
    hide Stream, ReadKey, NextToken, DecodeDeal, Ends;
  }

  lemma StopsUnder(input: Input, d: Decoder)
    requires d.Valid(input) && Stops(input, d)
    ensures Stream(input, d) == [] || Stream(input, d) == [Failed(ReadKey(input, d).0.GetOr(""))]
  {
    hide ReadKey, NextToken, DecodeDeal;
  }

  lemma NothingAhead(input: Input, d: Decoder, shape: Shape, first: bool)
    requires AtHead(input, d, shape, first)
    requires Stream(input, d) == LastMessage(input, input.lexemes[d.pos..], shape, first)
    ensures NoEntryAhead(input, input.lexemes[d.pos..], shape, first)
  {
    hide Stream, Results, EntryText;
    forall en, more | Good(input, [en])
      ensures input.lexemes[d.pos..] != EntryText(en, shape, first) + more
    {
      if input.lexemes[d.pos..] == EntryText(en, shape, first) + more {
        SendsAResult(input, d, shape, first, en, more);
      }
    }
  }

  lemma SendsAResult(input: Input, d: Decoder, shape: Shape, first: bool, en: Entry, more: seq<Lexeme>)
    requires AtHead(input, d, shape, first) && Good(input, [en])
    requires input.lexemes[d.pos..] == EntryText(en, shape, first) + more
    ensures Stream(input, d) != [] && Stream(input, d)[0].Received?
  {
    hide Stream, Results, EntryText;
    ResultsOne(input, en);
    var d' := RoundForwards(input, d, shape, first, en, more);
  }

  /** Over any input that begins with a bracket every message is this: the results of the good entries at the
      front of the text, all of them, and what the rest of it calls for. No other input gives anything but
      one failure. */
  lemma RunExactly(input: Input) returns (entries: seq<Entry>, shape: Shape, tail: seq<Lexeme>)
    ensures Good(input, entries)
    ensures
      if input.lexemes != [] && input.lexemes[0] in {LBrace, LBrack} then
        && input.lexemes == [shape.Opening()] + (Render(entries, shape, true) + tail)
        && NoEntryAhead(input, tail, shape, entries == [])
        && Snapshot(input) == Results(input, entries) + LastMessage(input, tail, shape, entries == [])
      else
        entries == [] && Snapshot(input) == [Failed("")]
  {
    if input.lexemes == [] || (input.lexemes[0] != LBrace && input.lexemes[0] != LBrack) {
      entries, shape, tail := [], Object, [];
      NotAContainer(input);
    } else {
      hide Stream, ReadKey, NextToken, DecodeDeal, ReadValue, Results, Snapshot, Render, LastMessage, NoEntryAhead, AtHead;
      shape := if input.lexemes[0] == LBrace then Object else Array;
      var d := AtContainer(input, shape);
      var d';
      entries, d' := StreamParses(input, d, shape, true);
      tail := input.lexemes[d'.pos..];
      NothingAhead(input, d', shape, entries == []);
      assert input.lexemes == [shape.Opening()] + input.lexemes[1..];
    }
  }
}
