/** The producer that lists deals page by page. It sends each key with a pointer to the one variable
    of its range loop, over a channel of capacity one: every interleaving with the consumer. */
module PagedLister {
  import opened Wrappers
  import opened Deals
  import opened Folds

  datatype Listed = Listed(id: int, info: Deal)

  /** The answer to one page's request. */
  datatype Reply = RequestFailed | BadStatus(code: int) | BadBody | Page(deals: seq<Listed>)

  /** fetch answers by page number. perItem makes a fresh variable for each deal, as the code does not. */
  datatype Lister = Lister(fetch: nat -> Reply, perItem: bool) {
    function Deals(page: nat): seq<Listed> {
      if fetch(page).Page? then fetch(page).deals else []
    }

    function Variable(page: nat, index: nat): Address {
      if perItem then Own(page, index) else Shared(page)
    }
  }

  datatype Address = Shared(page: nat) | Own(page: nat, index: nat)

  /** A message carries its key by value and its deal by reference. */
  datatype Message = Item(page: nat, index: nat, key: int, deal: Address) | Error

  datatype Producer =
    | Fetching(page: nat)
    | Assigning(page: nat, index: nat)
    | Sending(page: nat, index: nat)
    | SendingError(page: nat)
    | Closing(page: nat)
    | Closed(page: nat)

  datatype State = State(producer: Producer, heap: map<Address, Deal>, chan: seq<Message>, received: seq<Message>) {
    /** The message that the consumer works on. */
    function Held(): Option<Message> {
      if received == [] then None else Some(received[|received| - 1])
    }
  }

  const CAPACITY: nat := 1

  const INIT: State := State(Fetching(1), map[], [], [])

  /* ----- The steps ----- */

  predicate Next(l: Lister, s: State, s': State) {
    Fetch(l, s, s') || Assign(l, s, s') || Send(l, s, s') || SendError(s, s') || Close(s, s') || Receive(s, s')
  }

  predicate Fetch(l: Lister, s: State, s': State) {
    && s.producer.Fetching?
    && var p := s.producer.page;
       s' == s.(producer :=
                  if !l.fetch(p).Page? then SendingError(p)
                  else if l.fetch(p).deals == [] then Closing(p)
                  else Assigning(p, 0))
  }

  /** The range loop assigns its variable. */
  predicate Assign(l: Lister, s: State, s': State) {
    && s.producer.Assigning?
    && var (p, i) := (s.producer.page, s.producer.index);
       && i < |l.Deals(p)|
       && s' == s.(heap := s.heap[l.Variable(p, i) := l.Deals(p)[i].info], producer := Sending(p, i))
  }

  predicate Send(l: Lister, s: State, s': State) {
    && s.producer.Sending? && |s.chan| < CAPACITY
    && var (p, i) := (s.producer.page, s.producer.index);
       && i < |l.Deals(p)|
       && s' == s.(chan := s.chan + [Item(p, i, l.Deals(p)[i].id, l.Variable(p, i))],
                   producer := if i + 1 < |l.Deals(p)| then Assigning(p, i + 1) else Fetching(p + 1))
  }

  predicate SendError(s: State, s': State) {
    s.producer.SendingError? && |s.chan| < CAPACITY &&
    s' == s.(chan := s.chan + [Error], producer := Closing(s.producer.page))
  }

  predicate Close(s: State, s': State) {
    s.producer.Closing? && s' == s.(producer := Closed(s.producer.page))
  }

  /** The consumer takes the next message and lets go of the last one. */
  predicate Receive(s: State, s': State) {
    s.chan != [] && s' == s.(chan := s.chan[1..], received := s.received + [s.chan[0]])
  }

  /** What the consumer sees through the pointer that came with the i-th key of the page, now. */
  ghost predicate Sees(s: State, page: nat, index: nat, d: Deal) {
    && s.Held().Some? && s.Held().value.Item? && s.Held().value.page == page && s.Held().value.index == index
    && s.Held().value.deal in s.heap && s.heap[s.Held().value.deal] == d
  }

  ghost predicate Run(l: Lister, trace: seq<State>) {
    trace != [] && trace[0] == INIT && forall i :: 0 <= i < |trace| - 1 ==> Next(l, trace[i], trace[i + 1])
  }

  ghost predicate Reachable(l: Lister, s: State) {
    exists trace :: Run(l, trace) && trace[|trace| - 1] == s
  }

  lemma Step(l: Lister, s: State, s': State)
    requires Reachable(l, s) && Next(l, s, s')
    ensures Reachable(l, s')
  {
    var trace :| Run(l, trace) && trace[|trace| - 1] == s;
    assert Run(l, trace + [s']);
    assert (trace + [s'])[|trace|] == s';
  }

  /* ----- How far the producer can be ahead ----- */

  datatype Slot = Slot(page: nat, index: nat)

  /** The place of the next message that the producer has to send. */
  function NextToSend(p: Producer): Slot {
    match p
    case Assigning(page, i) => Slot(page, i)
    case Sending(page, i) => Slot(page, i)
    case _ => Slot(p.page, 0)
  }

  /** The place of the next message that the consumer is to receive, errors aside. */
  function NextToReceive(s: State): Slot {
    if s.chan != [] && s.chan[0].Item? then Slot(s.chan[0].page, s.chan[0].index) else NextToSend(s.producer)
  }

  /** A key goes with the pointer that was taken for it. */
  predicate Genuine(l: Lister, m: Message) {
    && m.Item? && m.page >= 1 && m.index < |l.Deals(m.page)|
    && m.key == l.Deals(m.page)[m.index].id && m.deal == l.Variable(m.page, m.index)
  }

  predicate Follows(l: Lister, m: Message, next: Slot) {
    m.Item? && m.index < |l.Deals(m.page)| &&
    next == if m.index + 1 < |l.Deals(m.page)| then Slot(m.page, m.index + 1) else Slot(m.page + 1, 0)
  }

  /** Messages are in place one behind the other, and each still points to its variable. */
  ghost predicate InOrder(l: Lister, s: State) {
    && |s.chan| <= CAPACITY
    && s.producer.page >= 1
    && ((s.producer.Assigning? || s.producer.Sending?) ==> s.producer.index < |l.Deals(s.producer.page)|)
    && (s.chan != [] && s.chan[0].Item? ==>
          Follows(l, s.chan[0], NextToSend(s.producer)) && Genuine(l, s.chan[0]))
    && (s.Held().Some? && s.Held().value.Item? ==>
          Follows(l, s.Held().value, NextToReceive(s)) && Genuine(l, s.Held().value))
  }

  /** The index of the deal that the page's shared variable holds, for a page in or behind the loop. */
  function InVariable(l: Lister, p: Producer, page: nat): int {
    if p.page > page then |l.Deals(page)| - 1
    else
      match p
      case Assigning(_, i) => i - 1
      case Sending(_, i) => i
      case _ => -1
  }

  /** The variable of this deal, if it has been assigned by now, holds what it should. */
  ghost predicate Holds(l: Lister, s: State, page: nat, i: nat)
    requires i < |l.Deals(page)|
  {
    var now := InVariable(l, s.producer, page);
    (if l.perItem then i <= now else i == now) ==>
      l.Variable(page, i) in s.heap && s.heap[l.Variable(page, i)] == l.Deals(page)[i].info
  }

  ghost predicate HeapHolds(l: Lister, s: State) {
    forall page: nat, i: nat :: 1 <= page <= s.producer.page && i < |l.Deals(page)| ==> Holds(l, s, page, i)
  }

  lemma {:induction false} Invariant(l: Lister, trace: seq<State>)
    requires Run(l, trace)
    ensures InOrder(l, trace[|trace| - 1]) && HeapHolds(l, trace[|trace| - 1])
  {
    if |trace| > 1 {
      var n := |trace| - 1;
      assert Run(l, trace[..n]);
      Invariant(l, trace[..n]);
      assert Next(l, trace[n - 1], trace[n]);
      InOrderStep(l, trace[n - 1], trace[n]);
      HeapHoldsStep(l, trace[n - 1], trace[n]);
    }
  }

  lemma InOrderStep(l: Lister, s: State, s': State)
    requires InOrder(l, s) && Next(l, s, s')
    ensures InOrder(l, s')
  {
  }

  lemma HeapHoldsStep(l: Lister, s: State, s': State)
    requires InOrder(l, s) && HeapHolds(l, s) && Next(l, s, s')
    ensures HeapHolds(l, s')
  {
    forall page: nat, i: nat | 1 <= page <= s'.producer.page && i < |l.Deals(page)|
      ensures Holds(l, s', page, i)
    {
      if page <= s.producer.page {
        assert Holds(l, s, page, i);
      }
    }
  }

  function Min(a: int, b: int): int {
    if a < b then a else b
  }

  /** In every interleaving, whatever is read through the pointer of a page's i-th key is the deal at
      some j of that page from i to i + 2, and the last key's own deal when i is last. */
  lemma SlipBound(l: Lister, s: State)
    requires Reachable(l, s) && s.Held().Some? && s.Held().value.Item?
    ensures
      var (page, i, deals) := (s.Held().value.page, s.Held().value.index, l.Deals(s.Held().value.page));
      && i < |deals| && s.Held().value.key == deals[i].id
      && exists j :: i <= j <= Min(i + 2, |deals| - 1) && Sees(s, page, i, deals[j].info)
  {
    var trace :| Run(l, trace) && trace[|trace| - 1] == s;
    Invariant(l, trace);
    var m := s.Held().value;
    var j := if l.perItem then m.index else InVariable(l, s.producer, m.page);
    assert Holds(l, s, m.page, j);
    assert m.index <= j <= Min(m.index + 2, |l.Deals(m.page)| - 1);
    assert Sees(s, m.page, m.index, l.Deals(m.page)[j].info);
  }

  /** With a variable for each deal, every read sees the deal of its own key. */
  lemma CopyIsExact(l: Lister, s: State)
    requires l.perItem
    requires Reachable(l, s) && s.Held().Some? && s.Held().value.Item?
    ensures
      var (page, i) := (s.Held().value.page, s.Held().value.index);
      i < |l.Deals(page)| && Sees(s, page, i, l.Deals(page)[i].info)
  {
    var trace :| Run(l, trace) && trace[|trace| - 1] == s;
    Invariant(l, trace);
    assert Holds(l, s, s.Held().value.page, s.Held().value.index);
  }

  /* ----- Every deal is listed once, in order ----- */

  function MessageAt(l: Lister, p: nat, i: nat): Message
    requires i < |l.Deals(p)|
  {
    Item(p, i, l.Deals(p)[i].id, l.Variable(p, i))
  }

  /** All messages of the listing in front of a place. */
  function Before(l: Lister, at: Slot): seq<Message>
    requires at.page >= 1 && at.index <= |l.Deals(at.page)|
    decreases at.page, at.index
  {
    if at.index > 0 then Before(l, Slot(at.page, at.index - 1)) + [MessageAt(l, at.page, at.index - 1)]
    else if at.page == 1 then []
    else Before(l, Slot(at.page - 1, |l.Deals(at.page - 1)|))
  }

  predicate InFront(m: Message, at: Slot) {
    m.Item? && (m.page < at.page || (m.page == at.page && m.index < at.index))
  }

  lemma DistinctAppend<T>(xs: seq<T>, x: T)
    requires NoDuplicates(xs) && x !in xs
    ensures NoDuplicates(xs + [x])
  {
    forall i, j | 0 <= i < j < |xs| + 1
      ensures (xs + [x])[i] != (xs + [x])[j]
    {
      assert xs[i] in xs;
    }
  }

  /** They are the messages of exactly the deals in front of the place, each once. */
  lemma {:induction false} BeforeMeaning(l: Lister, at: Slot)
    requires at.page >= 1 && at.index <= |l.Deals(at.page)|
    ensures NoDuplicates(Before(l, at))
    ensures forall m :: m in Before(l, at) <==> Genuine(l, m) && InFront(m, at)
    decreases at.page, at.index
  {
    if at.index > 0 {
      var (earlier, last) := (Before(l, Slot(at.page, at.index - 1)), MessageAt(l, at.page, at.index - 1));
      BeforeMeaning(l, Slot(at.page, at.index - 1));
      assert last !in earlier;
      DistinctAppend(earlier, last);
    } else if at.page > 1 {
      BeforeMeaning(l, Slot(at.page - 1, |l.Deals(at.page - 1)|));
    }
  }

  /** Whatever the producer sent is on its way or received, without loss, repetition or change of order. */
  ghost predicate Delivered(l: Lister, s: State) {
    && s.producer.page >= 1
    && ((s.producer.Assigning? || s.producer.Sending?) ==> s.producer.index < |l.Deals(s.producer.page)|)
    && (forall p :: 1 <= p < s.producer.page ==> l.Deals(p) != [])
    && (s.producer.SendingError? ==> !l.fetch(s.producer.page).Page?)
    && ((s.producer.Closing? || s.producer.Closed?) ==> l.Deals(s.producer.page) == [])
    && s.received + s.chan == Before(l, NextToSend(s.producer)) + Failure(l, s.producer)
  }

  /** The one error that a failed page adds at the end. */
  function Failure(l: Lister, p: Producer): seq<Message> {
    if (p.Closing? || p.Closed?) && !l.fetch(p.page).Page? then [Error] else []
  }

  lemma DeliveredStep(l: Lister, s: State, s': State)
    requires Delivered(l, s) && Next(l, s, s')
    ensures Delivered(l, s')
  {
    if Receive(s, s') {
      assert s'.received + s'.chan == s.received + s.chan;
    } else if Send(l, s, s') {
      SendDelivers(l, s, s');
    } else if SendError(s, s') {
      assert s'.received + s'.chan == s.received + s.chan + [Error];
    } else if Fetch(l, s, s') {
      assert s'.received + s'.chan == s.received + s.chan;
    } else {
      assert s'.received + s'.chan == s.received + s.chan;
    }
  }

  lemma SendDelivers(l: Lister, s: State, s': State)
    requires Delivered(l, s) && Send(l, s, s')
    ensures Delivered(l, s')
  {
    var (p, i) := (s.producer.page, s.producer.index);
    assert Before(l, Slot(p, i + 1)) == Before(l, Slot(p, i)) + [MessageAt(l, p, i)];
    assert i + 1 == |l.Deals(p)| ==> Before(l, Slot(p + 1, 0)) == Before(l, Slot(p, i + 1));
    hide Before;
    assert s'.received + s'.chan == s.received + s.chan + [MessageAt(l, p, i)];
  }

  lemma {:induction false} RunDelivers(l: Lister, trace: seq<State>)
    requires Run(l, trace)
    ensures Delivered(l, trace[|trace| - 1])
  {
    if |trace| > 1 {
      var n := |trace| - 1;
      assert Run(l, trace[..n]);
      RunDelivers(l, trace[..n]);
      assert Next(l, trace[n - 1], trace[n]);
      DeliveredStep(l, trace[n - 1], trace[n]);
    }
  }

  /** Once the channel is closed and empty, the consumer has received every deal of every page in front
      of the first that is empty or fails, each once and in order, and behind them one error if it failed. */
  lemma ListingComplete(l: Lister, s: State)
    requires Reachable(l, s) && s.producer.Closed? && s.chan == []
    ensures
      var page := s.producer.page;
      && page >= 1 && l.Deals(page) == [] && (forall p :: 1 <= p < page ==> l.Deals(p) != [])
      && s.received == Before(l, Slot(page, 0)) + (if l.fetch(page).Page? then [] else [Error])
      && NoDuplicates(s.received)
      && forall m :: m in s.received && m.Item? <==> Genuine(l, m) && m.page < page
  {
    var trace :| Run(l, trace) && trace[|trace| - 1] == s;
    RunDelivers(l, trace);
    assert s.received == s.received + s.chan;
    var items := Before(l, Slot(s.producer.page, 0));
    BeforeMeaning(l, Slot(s.producer.page, 0));
    assert Error !in items;
    DistinctAppend(items, Error);
    assert items + [] == items;
  }

  /* ----- The bound is reached ----- */

  /** The producer gets to the page: no page before is empty or fails. */
  ghost predicate Listable(l: Lister, page: nat) {
    page >= 1 && forall p :: 1 <= p <= page ==> l.Deals(p) != []
  }

  /** The producer is about to send a deal, and nothing is on its way. */
  ghost predicate Calm(l: Lister, s: State, page: nat, index: nat) {
    Reachable(l, s) && s.producer == Sending(page, index) && s.chan == []
  }

  /** From there the consumer can take that deal's key before the producer moves on. */
  lemma Deliver(l: Lister, s: State, page: nat, index: nat) returns (s': State)
    requires Calm(l, s, page, index) && index < |l.Deals(page)|
    ensures Reachable(l, s') && s'.chan == [] && s'.heap == s.heap
    ensures s'.Held() == Some(Item(page, index, l.Deals(page)[index].id, l.Variable(page, index)))
    ensures s'.producer == if index + 1 < |l.Deals(page)| then Assigning(page, index + 1) else Fetching(page + 1)
  {
    var m := Item(page, index, l.Deals(page)[index].id, l.Variable(page, index));
    var next := if index + 1 < |l.Deals(page)| then Assigning(page, index + 1) else Fetching(page + 1);
    var sent := s.(chan := [m], producer := next);
    assert Send(l, s, sent);
    Step(l, s, sent);
    s' := sent.(chan := [], received := sent.received + [m]);
    assert Receive(sent, s');
    Step(l, sent, s');
  }

  lemma AssignNext(l: Lister, s: State) returns (s': State)
    requires Reachable(l, s) && s.producer.Assigning? && s.producer.index < |l.Deals(s.producer.page)|
    ensures Reachable(l, s')
    ensures
      var (page, i) := (s.producer.page, s.producer.index);
      s' == s.(heap := s.heap[l.Variable(page, i) := l.Deals(page)[i].info], producer := Sending(page, i))
  {
    var (page, i) := (s.producer.page, s.producer.index);
    s' := s.(heap := s.heap[l.Variable(page, i) := l.Deals(page)[i].info], producer := Sending(page, i));
    assert Assign(l, s, s');
    Step(l, s, s');
  }

  /** Every deal of a listable page gets its turn, with the variable just assigned. */
  lemma {:induction false} ReachDeal(l: Lister, page: nat, index: nat) returns (s: State)
    requires Listable(l, page) && index < |l.Deals(page)|
    ensures Calm(l, s, page, index)
    ensures l.Variable(page, index) in s.heap && s.heap[l.Variable(page, index)] == l.Deals(page)[index].info
    decreases page, index
  {
    var before: State;
    if index > 0 {
      before := ReachDeal(l, page, index - 1);
      before := Deliver(l, before, page, index - 1);
    } else {
      if page > 1 {
        var last := |l.Deals(page - 1)| - 1;
        before := ReachDeal(l, page - 1, last);
        before := Deliver(l, before, page - 1, last);
      } else {
        before := INIT;
        assert Run(l, [INIT]);
      }
      var fetched := before.(producer := Assigning(page, 0));
      assert Fetch(l, before, fetched);
      Step(l, before, fetched);
      before := fetched;
    }
    s := AssignNext(l, before);
  }

  /** Each deal that the bound allows is seen in some interleaving. */
  lemma SlipReached(l: Lister, page: nat, index: nat, j: nat)
    requires !l.perItem && Listable(l, page) && index <= j <= Min(index + 2, |l.Deals(page)| - 1)
    ensures exists s :: Reachable(l, s) && Sees(s, page, index, l.Deals(page)[j].info)
  {
    var s := ReachDeal(l, page, index);
    s := Deliver(l, s, page, index);
    if j > index {
      s := AssignNext(l, s);
      if j > index + 1 {
        var m := Item(page, index + 1, l.Deals(page)[index + 1].id, Shared(page));
        var sent := s.(chan := [m], producer := Assigning(page, index + 2));
        assert Send(l, s, sent);
        Step(l, s, sent);
        s := AssignNext(l, sent);
      }
    }
    assert Sees(s, page, index, l.Deals(page)[j].info);
  }

  /** What is intended, that a key's pointer always leads to the key's deal, is so exactly when the
      next two deals of the page are no different from it. */
  lemma SlipExact(l: Lister, page: nat, index: nat)
    requires !l.perItem && Listable(l, page) && index < |l.Deals(page)|
    ensures
      var deals := l.Deals(page);
      (forall s, d :: Reachable(l, s) && Sees(s, page, index, d) ==> d == deals[index].info) <==>
      forall j :: index <= j <= Min(index + 2, |deals| - 1) ==> deals[j].info == deals[index].info
  {
    var deals := l.Deals(page);
    if forall s, d :: Reachable(l, s) && Sees(s, page, index, d) ==> d == deals[index].info {
      forall j | index <= j <= Min(index + 2, |deals| - 1)
        ensures deals[j].info == deals[index].info
      {
        SlipReached(l, page, index, j);
      }
    }
    if forall j :: index <= j <= Min(index + 2, |deals| - 1) ==> deals[j].info == deals[index].info {
      forall s, d | Reachable(l, s) && Sees(s, page, index, d)
        ensures d == deals[index].info
      {
        SlipBound(l, s);
      }
    }
  }
}
