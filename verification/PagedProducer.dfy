/** The paginated producer and its channel with real references: every message of a page points to the
    one cell that the page's range loop assigns. Each method is one step of PagedLister. */
module PagedProducer {
  import opened Wrappers
  import opened Deals
  import opened PagedLister

  /** A variable of the producer's range loop. */
  class Cell {
    var deal: Deal

    constructor (d: Deal)
      ensures deal == d
    {
      deal := d;
    }
  }

  datatype Sent = SentDeal(key: int, deal: Cell) | SentError

  /** The result is the message, with the page's cell for its pointer. */
  ghost predicate Points(cells: map<nat, Cell>, r: Sent, m: Message) {
    match m
    case Item(page, _, key, address) => address == Shared(page) && page in cells && r == SentDeal(key, cells[page])
    case Error => r.SentError?
  }

  class Session {
    const lister: Lister
    var producer: Producer
    var loopVariable: Option<Cell>
    var results: seq<Sent>
    var current: Option<Sent>
    ghost var cells: map<nat, Cell>
    ghost var state: State

    /** Each page in or behind its loop has a cell of its own, and the heap of the state is what they hold. */
    ghost predicate CellsHold()
      reads this, cells.Values
    {
      && (forall p :: p in cells ==>
            Shared(p) in state.heap && state.heap[Shared(p)] == cells[p].deal &&
            (p < producer.page || (p == producer.page && InLoop())))
      && (forall p, q :: p in cells && q in cells && p != q ==> cells[p] != cells[q])
      && (InLoop() ==> producer.page in cells && loopVariable == Some(cells[producer.page]))
    }

    /** The loop over the page has assigned its variable. */
    predicate InLoop()
      reads this
    {
      producer.Sending? || (producer.Assigning? && producer.index > 0)
    }

    ghost predicate Valid()
      reads this, cells.Values
    {
      && !lister.perItem && Reachable(lister, state) && state.producer == producer
      && CellsHold()
      && |results| == |state.chan| && (forall k :: 0 <= k < |results| ==> Points(cells, results[k], state.chan[k]))
      && current.Some? == state.Held().Some?
      && (current.Some? ==> Points(cells, current.value, state.Held().value))
    }

    constructor (fetch: nat -> Reply)
      ensures Valid() && lister == Lister(fetch, false) && state == INIT
      ensures fresh(cells.Values)
    {
      lister, producer, loopVariable := Lister(fetch, false), Fetching(1), None;
      results, current, cells, state := [], None, map[], INIT;
      new;
      assert Run(lister, [INIT]);
    }

    /** A page is requested, and the answer decides how the producer goes on. */
    method RequestPage()
      requires Valid() && producer.Fetching?
      modifies this
      ensures Valid() && cells == old(cells) && Fetch(lister, old(state), state)
    {
      var page := producer.page;
      var reply := lister.fetch(page);
      if !reply.Page? {
        producer := SendingError(page);
      } else if reply.deals == [] {
        producer := Closing(page);
      } else {
        producer := Assigning(page, 0);
      }
      state := state.(producer := producer);
      assert Next(lister, old(state), state);
      Step(lister, old(state), state);
    }

    /** The range loop assigns its variable, a new one for a new page. */
    method AssignVariable()
      requires Valid() && producer.Assigning?
      modifies this, cells.Values
      ensures Valid() && Assign(lister, old(state), state)
      ensures fresh(cells.Values - old(cells.Values))
    {
      hide Reachable;
      InLoopOfPage();
      var (page, i) := (producer.page, producer.index);
      var d := lister.fetch(page).deals[i].info;
      SetVariable(d);
      producer := Sending(page, i);
      state := state.(heap := state.heap[Shared(page) := d], producer := producer);
      hide Fetch, Send, SendError, Close, Receive;
      Step(lister, old(state), state);
      forall p | p in cells
        ensures Shared(p) in state.heap && state.heap[Shared(p)] == cells[p].deal && p <= page
      {
        if p != page {
          assert p in old(cells);
        }
      }
    }

    /** The assignment itself: of the loop's cell, or of a new one in the loop's first turn. */
    method SetVariable(d: Deal)
      requires CellsHold() && producer.Assigning?
      modifies this`loopVariable, this`cells, cells.Values
      ensures cells.Keys == old(cells.Keys) + {producer.page} && cells[producer.page].deal == d
      ensures loopVariable == Some(cells[producer.page])
      ensures forall p :: p in old(cells) ==> cells[p] == old(cells[p])
      ensures forall p :: p in old(cells) && p != producer.page ==> cells[p].deal == old(cells[p].deal)
      ensures forall p, q :: p in cells && q in cells && p != q ==> cells[p] != cells[q]
      ensures fresh(cells.Values - old(cells.Values))
    {
      if producer.index == 0 {
        var cell := new Cell(d);
        loopVariable, cells := Some(cell), cells[producer.page := cell];
      } else {
        loopVariable.value.deal := d;
      }
    }

    lemma InLoopOfPage()
      requires Valid() && (producer.Assigning? || producer.Sending?)
      ensures lister.fetch(producer.page).Page? && producer.index < |lister.fetch(producer.page).deals|
    {
      var trace :| Run(lister, trace) && trace[|trace| - 1] == state;
      Invariant(lister, trace);
    }

    /** The producer sends the key with a pointer to the loop's variable. */
    method SendDeal()
      requires Valid() && producer.Sending? && |results| < CAPACITY
      modifies this
      ensures Valid() && cells == old(cells) && Send(lister, old(state), state)
    {
      hide Reachable;
      var (page, i) := (producer.page, producer.index);
      InLoopOfPage();
      var deals := lister.fetch(page).deals;
      results := results + [SentDeal(deals[i].id, loopVariable.value)];
      producer := if i + 1 < |deals| then Assigning(page, i + 1) else Fetching(page + 1);
      state := state.(chan := state.chan + [Item(page, i, deals[i].id, Shared(page))], producer := producer);
      assert Next(lister, old(state), state);
      Step(lister, old(state), state);
    }

    method SendFailure()
      requires Valid() && producer.SendingError? && |results| < CAPACITY
      modifies this
      ensures Valid() && cells == old(cells) && SendError(old(state), state)
    {
      results, producer := results + [SentError], Closing(producer.page);
      state := state.(chan := state.chan + [Error], producer := producer);
      assert Next(lister, old(state), state);
      Step(lister, old(state), state);
    }

    method CloseResults()
      requires Valid() && producer.Closing?
      modifies this
      ensures Valid() && cells == old(cells) && Close(old(state), state)
    {
      producer := Closed(producer.page);
      state := state.(producer := producer);
      assert Next(lister, old(state), state);
      Step(lister, old(state), state);
    }

    /** The consumer's receive. */
    method ReceiveResult()
      requires Valid() && results != []
      modifies this
      ensures Valid() && cells == old(cells) && Receive(old(state), state)
    {
      current, results := Some(results[0]), results[1..];
      state := state.(chan := state.chan[1..], received := state.received + [state.chan[0]]);
      assert Next(lister, old(state), state);
      Step(lister, old(state), state);
    }

    /** A read through the pointer finds a deal up to two behind the key's own. */
    method ReadDeal() returns (d: Deal)
      requires Valid() && current.Some? && current.value.SentDeal?
      ensures exists page: nat, i: nat, j: nat ::
                && state.Held() == Some(Item(page, i, current.value.key, Shared(page)))
                && i <= j <= Min(i + 2, |lister.Deals(page)| - 1)
                && current.value.key == lister.Deals(page)[i].id && d == lister.Deals(page)[j].info
    {
      d := current.value.deal.deal;
      SlipBound(lister, state);
    }
  }
}
