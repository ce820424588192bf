/** Whole snapshots as JSON documents, by themselves: what the producer sends over the text of an object. */
module Documents {
  import opened Wrappers
  import opened Deals
  import opened JsonStream
  import opened JsonGrammar
  import opened SnapshotParser

  /** Every member has a key, and a value that unmarshals into a deal. */
  predicate AllDeals(ms: Members, unmarshal: seq<Lexeme> -> Option<Deal>) {
    match ms
    case NoMember => true
    case Member(k, v, more) => k != "" && unmarshal(TextOf(v)).Some? && AllDeals(more, unmarshal)
  }

  /** One message for each member, in order. */
  function Messages(ms: Members, unmarshal: seq<Lexeme> -> Option<Deal>): seq<DealResult>
    requires AllDeals(ms, unmarshal)
  {
    match ms
    case NoMember => []
    case Member(k, v, more) => [Received(k, unmarshal(TextOf(v)).value)] + Messages(more, unmarshal)
  }

  function EntriesOf(ms: Members): seq<Entry> {
    match ms
    case NoMember => []
    case Member(k, v, more) => [Entry(k, TextOf(v))] + EntriesOf(more)
  }

  lemma {:induction false} EntriesRender(ms: Members, first: bool)
    ensures Render(EntriesOf(ms), Object, first) + [RBrace] ==
              if ms.Member? then Separator(first) + InsideObject(ms) else [RBrace]
  {
    match ms {
      case NoMember =>
      case Member(k, v, more) =>
        var en := Entry(k, TextOf(v));
        RenderCons(en, EntriesOf(more), Object, first);
        EntriesRender(more, false);
        hide Render, TextOf, EntryText;
        var behind := if more.Member? then [Comma] + InsideObject(more) else [RBrace];
        EntryBefore(k, TextOf(v), first, behind);
        assert InsideObject(ms) == [Str(k), Colon] + (TextOf(v) + behind);
        Regroup(EntryText(en, Object, first), Render(EntriesOf(more), Object, false), [RBrace]);
    }
  }

  lemma EntryBefore(k: string, value: seq<Lexeme>, first: bool, behind: seq<Lexeme>)
    ensures EntryText(Entry(k, value), Object, first) + behind == Separator(first) + ([Str(k), Colon] + (value + behind))
  {
  }

  lemma Regroup(a: seq<Lexeme>, b: seq<Lexeme>, c: seq<Lexeme>)
    ensures a + b + c == a + (b + c)
  {
  }

  lemma {:induction false} EntriesGood(ms: Members, input: Input)
    requires AllDeals(ms, input.unmarshal)
    ensures Good(input, EntriesOf(ms)) && Results(input, EntriesOf(ms)) == Messages(ms, input.unmarshal)
  {
    match ms {
      case NoMember =>
      case Member(k, v, more) =>
        ReadsText(v);
        EntriesGood(more, input);
        var en := Entry(k, TextOf(v));
        assert Good(input, [en]);
        ResultsOne(input, en);
        hide Results, TextOf;
        ResultsAppend(input, [en], EntriesOf(more));
    }
  }

  /** Over the text of any object of deals under non-empty keys the producer sends exactly its deals, each under
      its key and in order, and no failure. */
  lemma DocumentAccepted(ms: Members, unmarshal: seq<Lexeme> -> Option<Deal>)
    requires AllDeals(ms, unmarshal)
    ensures Snapshot(Input(TextOf(JObject(ms)), false, unmarshal)) == Messages(ms, unmarshal)
  {
    var input := Input(TextOf(JObject(ms)), false, unmarshal);
    EntriesRender(ms, true);
    EntriesGood(ms, input);
    hide Render, Results, Snapshot, Messages, InsideObject;
    Regroup([LBrace], Render(EntriesOf(ms), Object, true), [RBrace]);
    assert ms.NoMember? ==> TextOf(JObject(ms)) == [LBrace] + [RBrace] by {
      EmptyObject();
    }
    assert Separator(true) + InsideObject(ms) == InsideObject(ms);
    hide TextOf, Good;
    Accepts(input, EntriesOf(ms), Object);
  }

  lemma EmptyObject()
    ensures TextOf(JObject(NoMember)) == [LBrace] + [RBrace]
  {
  }
}
