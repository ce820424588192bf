/** What a check's status and the fields of its record mean, in terms of the answers alone. */
module Statuses {
  import opened Wrappers
  import opened Int64
  import opened Deals
  import opened Targets

  /* ----- The answers ----- */

  /** The node answered with an address information of at least an identifier and an address. */
  predicate Addressed(w: World) {
    w.minerInfo.Ok? && w.minerInfo.value.Some? &&
    w.minerInfo.value.value.peerId != "" && w.minerInfo.value.value.addrs != []
  }

  /** So far, and the host was connected to and listed its protocols. */
  predicate Reached(w: World) {
    Addressed(w) && w.connect == None && w.protocols.Ok?
  }

  /** So far, and the i-th of the protocols is the first that carries a topic. */
  predicate Providing(w: World, i: nat) {
    && Reached(w) && i < |w.protocols.value| && w.topicIn(w.protocols.value[i]).Some?
    && forall j :: 0 <= j < i ==> w.topicIn(w.protocols.value[j]) == None
  }

  /** So far, and it is the expected topic. */
  predicate OnTopic(w: World, i: nat) {
    Providing(w, i) && w.topicIn(w.protocols.value[i]) == Some(w.expectedTopic)
  }

  /** So far, and the host gave this head over that protocol. */
  predicate Heads(w: World, i: nat, head: Cid) {
    OnTopic(w, i) && w.getHead(w.protocols.value[i]) == Ok(head)
  }

  /* ----- Statuses ----- */

  /** The exact answers for each of the statuses, and the error that each comes with. */
  ghost predicate Means(w: World, status: Status, err: Option<Error>) {
    match status
    case StatusUnknown => false
    case StatusAPICallFailed => exists code :: w.minerInfo == Err(HttpError(code)) && err == Some(HttpError(code))
    case StatusNotMiner => w.minerInfo == Err(RpcError(1)) && err == Some(RpcError(1))
    case StatusUnknownRPCError => exists code :: code != 1 && w.minerInfo == Err(RpcError(code)) && err == Some(RpcError(code))
    case StatusInternalError => exists text :: w.minerInfo == Err(OtherError(text)) && err == Some(OtherError(text))
    case StatusNoAddrInfo =>
      err == None && w.minerInfo.Ok? &&
      (w.minerInfo.value == None || (w.minerInfo.value.value.peerId == "" && w.minerInfo.value.value.addrs == []))
    case StatusUnidentifiable =>
      err == None && w.minerInfo.Ok? && w.minerInfo.value.Some? &&
      w.minerInfo.value.value.peerId == "" && w.minerInfo.value.value.addrs != []
    case StatusUnaddressable =>
      err == None && w.minerInfo.Ok? && w.minerInfo.value.Some? &&
      w.minerInfo.value.value.peerId != "" && w.minerInfo.value.value.addrs == []
    case StatusUnreachable =>
      Addressed(w) && err.Some? && (if w.connect.Some? then err == w.connect else w.protocols == Err(err.value))
    case StatusUnindexed => Reached(w) && err == None && forall p :: p in w.protocols.value ==> w.topicIn(p) == None
    case StatusTopicMismatch => err == None && exists i: nat :: Providing(w, i) && !OnTopic(w, i)
    case StatusGetHeadError => err.Some? && exists i: nat :: OnTopic(w, i) && w.getHead(w.protocols.value[i]) == Err(err.value)
    case StatusEmptyHead => err == None && exists i: nat :: Heads(w, i, "")
    case StatusAnnounceError => err.Some? && exists i: nat, head :: Heads(w, i, head) && head != "" && w.announce(head) == err
    case StatusOK => err == None && exists i: nat, head :: Heads(w, i, head) && head != "" && w.announce(head) == None
  }

  /** The record carries a status and an error exactly when the answers are those that they mean. */
  lemma StatusExactly(id: string, w: World, status: Status, err: Option<Error>)
    ensures Checked(id, w).status == status && Checked(id, w).err == err <==> Means(w, status, err)
  {
    var r := Checked(id, w);
    CheckedMeans(id, w);
    if Means(w, status, err) {
      MeansOne(w, status, err, r.status, r.err);
    }
  }

  /** No answers mean two things. */
  lemma MeansOne(w: World, s: Status, e: Option<Error>, s': Status, e': Option<Error>)
    requires Means(w, s, e) && Means(w, s', e')
    ensures s == s' && e == e'
  {
    SomeProvider(w);
    if Reached(w) && exists i: nat :: Providing(w, i) {
      var i: nat :| Providing(w, i);
      forall j: nat | Providing(w, j)
        ensures j == i
      {
      }
    }
  }

  lemma SomeProvider(w: World)
    ensures Reached(w) ==> (exists i: nat :: Providing(w, i)) || forall p :: p in w.protocols.value ==> w.topicIn(p) == None
  {
    if Reached(w) && exists j :: 0 <= j < |w.protocols.value| && w.topicIn(w.protocols.value[j]).Some? {
      var i := FirstOf(w, |w.protocols.value|);
    }
  }

  lemma {:induction false} FirstOf(w: World, n: nat) returns (i: nat)
    requires Reached(w) && n <= |w.protocols.value|
    requires exists j :: 0 <= j < n && w.topicIn(w.protocols.value[j]).Some?
    ensures Providing(w, i)
    decreases n
  {
    if exists j :: 0 <= j < n - 1 && w.topicIn(w.protocols.value[j]).Some? {
      i := FirstOf(w, n - 1);
    } else {
      i := n - 1;
    }
  }

  lemma CheckedMeans(id: string, w: World)
    ensures Means(w, Checked(id, w).status, Checked(id, w).err)
  {
    StagesPass(w);
    var n := Passed(w, 0);
    hide Passed;
    if n < 4 {
      EarlyMeans(w, n);
    } else {
      LateMeans(w, n);
    }
  }

  lemma EarlyMeans(w: World, n: nat)
    requires n < 4 && Passed(w, 0) == n && forall i :: 0 <= i < n ==> Objection(w, STAGES[i]) == None
    ensures Means(w, Verdict(w).0, Verdict(w).1)
  {
    hide FirstHeadProtocol, HeadOf, TopicOf, HeadProtocolOf, Reached, Providing, OnTopic, Heads;
    assert n > 0 ==> Objection(w, STAGES[0]) == None;
    assert n > 1 ==> Objection(w, STAGES[1]) == None;
    assert n > 2 ==> Objection(w, STAGES[2]) == None;
  }

  lemma LateMeans(w: World, n: nat)
    requires 4 <= n <= 9 && Passed(w, 0) == n && forall i :: 0 <= i < n ==> Objection(w, STAGES[i]) == None
    ensures Means(w, Verdict(w).0, Verdict(w).1)
  {
    ReachedAtFour(w);
    if n == 4 {
      hide TopicOf, HeadOf, HeadProtocolOf;
    } else {
      assert Objection(w, STAGES[4]) == None;
      var i := Provider(w);
      hide FirstHeadProtocol, Reached, HeadProtocolOf;
      if n == 5 {
        hide HeadOf;
      } else {
        assert Objection(w, STAGES[5]) == None;
        assert OnTopic(w, i);
        HeadMeans(w, n, i);
      }
    }
  }

  lemma HeadMeans(w: World, n: nat, i: nat)
    requires 6 <= n <= 9 && Passed(w, 0) == n && forall i :: 0 <= i < n ==> Objection(w, STAGES[i]) == None
    requires OnTopic(w, i) && HeadProtocolOf(w) == w.protocols.value[i]
    ensures Means(w, Verdict(w).0, Verdict(w).1)
  {
    hide OnTopic, HeadProtocolOf, TopicOf;
    assert n > 6 ==> Objection(w, STAGES[6]) == None;
    assert n > 7 ==> Objection(w, STAGES[7]) == None;
    assert n > 8 ==> Objection(w, STAGES[8]) == None;
    assert n > 6 ==> Heads(w, i, HeadOf(w));
  }

  lemma ReachedAtFour(w: World)
    requires forall i :: 0 <= i < 4 ==> Objection(w, STAGES[i]) == None
    ensures Reached(w)
  {
    assert Objection(w, STAGES[0]) == None && Objection(w, STAGES[1]) == None;
    assert Objection(w, STAGES[2]) == None && Objection(w, STAGES[3]) == None;
  }

  /** The protocol that the stages settle on, in terms of the answers. */
  lemma Provider(w: World) returns (i: nat)
    requires Reached(w) && FirstHeadProtocol(Protocols(w), w.topicIn).Some?
    ensures Providing(w, i) && HeadProtocolOf(w) == w.protocols.value[i]
    ensures w.topicIn(w.protocols.value[i]) == Some(TopicOf(w))
  {
    i :| i < |w.protocols.value| && FirstHeadProtocol(w.protocols.value, w.topicIn) == Some(w.protocols.value[i])
         && w.topicIn(w.protocols.value[i]).Some? && forall j :: 0 <= j < i ==> w.topicIn(w.protocols.value[j]) == None;
    hide FirstHeadProtocol;
  }

  /* ----- Fields ----- */

  /** Every other field of the record, and the heads announced. Each is what was answered, if the
      check came to ask, and zero otherwise. */
  lemma FieldsExactly(id: string, w: World)
    ensures
      var r := Checked(id, w);
      && r.id == id && r.lastChecked == w.now
      && r.errMessage == (if r.err == None then "" else w.describe(r.err.value))
      && r.addrInfo == (if w.minerInfo.Ok? then w.minerInfo.value else None)
      && (w.minerPower.Ok? ==> r.power == Some(w.minerPower.value)) && (w.minerPower.Err? ==> r.power == None)
      && (if id in w.counts
          then r.dealCount == w.counts[id].count && r.dealCountWithinDay == w.counts[id].countWithinDay
               && r.dealCountWithinWeek == w.counts[id].countWithinWeek
          else r.dealCount == r.dealCountWithinDay == r.dealCountWithinWeek == 0)
      && (r.knownByIndexer <==> Addressed(w) && w.knownByIndexer)
      && r.protocols == (if Reached(w) then w.protocols.value else [])
      && (if Reached(w) && w.agent.Agent?
          then r.agentVersion == w.agent.version && r.agentShortVersion == w.shorten(w.agent.version)
          else r.agentVersion == r.agentShortVersion == "")
      && r.transports ==
         (if Reached(w) && "/fil/retrieval/transports/1.0.0" in w.protocols.value && w.transports.Ok?
          then Some(w.transports.value) else None)
      && (forall i: nat :: Providing(w, i) ==>
            r.headProtocol == w.protocols.value[i] && Some(r.topic) == w.topicIn(w.protocols.value[i]))
      && ((forall i: nat :: !Providing(w, i)) ==> r.headProtocol == "" && r.topic == "")
      && (forall i: nat, head :: Heads(w, i, head) ==> r.head == head)
      && ((forall i: nat, head :: !Heads(w, i, head)) ==> r.head == "")
  {
    HowFar(w);
    ListedFrom(w);
    TopicsAndHeads(w);
    hide Passed, Addressed, Reached, Providing, OnTopic, Heads, Objection, FirstHeadProtocol, HeadOf, TopicOf, HeadProtocolOf, Verdict;
  }

  /** The heads that Target.Check says it announces: the head that the host gave, if it is defined. */
  lemma AnnouncedExactly(w: World)
    ensures
      var announced := if Passed(w, 0) >= 8 then [HeadOf(w)] else [];
      && (forall i: nat, head :: Heads(w, i, head) && head != "" ==> announced == [head])
      && ((forall i: nat, head :: Heads(w, i, head) ==> head == "") ==> announced == [])
  {
    HowFar(w);
    TopicsAndHeads(w);
    hide Passed, HeadOf, Heads;
  }

  /** A check that gets no list of protocols has none to keep. */
  lemma ListedFrom(w: World)
    ensures Passed(w, 0) == 3 ==> Protocols(w) == []
    ensures Reached(w) ==> Protocols(w) == w.protocols.value
  {
    StagesPass(w);
    hide Passed;
    assert Passed(w, 0) == 3 ==> Objection(w, STAGES[3]).Some?;
  }

  /** What the stages find under the names of head protocol, topic and head. */
  lemma TopicsAndHeads(w: World)
    ensures forall i: nat :: Providing(w, i) ==>
              HeadProtocolOf(w) == w.protocols.value[i] && Some(TopicOf(w)) == w.topicIn(w.protocols.value[i])
    ensures forall i: nat, head :: Heads(w, i, head) ==> HeadOf(w) == head
    ensures (exists i: nat :: OnTopic(w, i)) && HeadOf(w) != "" ==> exists i: nat, head :: Heads(w, i, head) && HeadOf(w) == head
  {
    forall i: nat | Providing(w, i)
      ensures HeadProtocolOf(w) == w.protocols.value[i] && Some(TopicOf(w)) == w.topicIn(w.protocols.value[i])
    {
      FirstFound(w.protocols.value, w.topicIn, i);
      hide FirstHeadProtocol;
    }
    hide FirstHeadProtocol, Providing, TopicOf, HeadProtocolOf;
    if i: nat :| OnTopic(w, i) && HeadOf(w) != "" {
      assert Heads(w, i, HeadOf(w));
    }
  }

  /** How far a check comes, in terms of the answers. */
  lemma HowFar(w: World)
    ensures
      var n := Passed(w, 0);
      && (n >= 2 <==> Addressed(w)) && (n >= 4 <==> Reached(w))
      && (n >= 5 <==> exists i: nat :: Providing(w, i))
      && (n >= 6 <==> exists i: nat :: OnTopic(w, i))
      && (n >= 8 <==> exists i: nat, head :: Heads(w, i, head) && head != "")
  {
    var n := Passed(w, 0);
    StagesPass(w);
    FirstStages(w);
    LaterStages(w);
    hide Objection, Addressed, Reached, Providing, OnTopic, Heads;
    assert n >= 2 ==> Objection(w, STAGES[0]) == None && Objection(w, STAGES[1]) == None;
    assert n >= 4 ==> Objection(w, STAGES[2]) == None && Objection(w, STAGES[3]) == None;
    assert n >= 5 ==> Objection(w, STAGES[4]) == None;
    assert n >= 6 ==> Objection(w, STAGES[5]) == None;
    assert n >= 8 ==> Objection(w, STAGES[6]) == None && Objection(w, STAGES[7]) == None;
    hide Passed;
    if Addressed(w) {
      PassedAtLeast(w, 2);
    }
    if Reached(w) {
      PassedAtLeast(w, 4);
    }
    if exists i: nat :: Providing(w, i) {
      PassedAtLeast(w, 5);
    }
    if exists i: nat :: OnTopic(w, i) {
      PassedAtLeast(w, 6);
    }
    if exists i: nat, head :: Heads(w, i, head) && head != "" {
      PassedAtLeast(w, 8);
    }
  }

  lemma FirstStages(w: World)
    ensures Objection(w, STAGES[0]) == None && Objection(w, STAGES[1]) == None <==> Addressed(w)
    ensures Addressed(w) ==> (Objection(w, STAGES[2]) == None && Objection(w, STAGES[3]) == None <==> Reached(w))
    ensures Reached(w) ==> Addressed(w)
  {
    hide FirstHeadProtocol;
  }

  lemma LaterStages(w: World)
    ensures (exists i: nat :: Providing(w, i)) <==> Reached(w) && Objection(w, STAGES[4]) == None
    ensures (exists i: nat :: OnTopic(w, i)) <==> (exists i: nat :: Providing(w, i)) && Objection(w, STAGES[5]) == None
    ensures (exists i: nat, head :: Heads(w, i, head) && head != "") <==>
              (exists i: nat :: OnTopic(w, i)) && Objection(w, STAGES[6]) == None && Objection(w, STAGES[7]) == None
  {
    if Reached(w) && Objection(w, STAGES[4]) == None {
      var i := Provider(w);
    }
    if i: nat :| Providing(w, i) {
      TopicStage(w, i);
      HeadStage(w, i);
      assert forall j: nat, head :: Heads(w, j, head) ==> OnTopic(w, j);
      assert forall j: nat :: OnTopic(w, j) ==> Providing(w, j);
      hide Objection, Providing, OnTopic, Heads;
    }
  }

  lemma TopicStage(w: World, i: nat)
    requires Providing(w, i)
    ensures Objection(w, STAGES[4]) == None
    ensures OnTopic(w, i) <==> Objection(w, STAGES[5]) == None
    ensures forall j: nat :: Providing(w, j) ==> j == i
  {
    FirstFound(w.protocols.value, w.topicIn, i);
    hide FirstHeadProtocol;
  }

  lemma HeadStage(w: World, i: nat)
    requires Providing(w, i)
    ensures OnTopic(w, i) ==>
              ((exists head :: Heads(w, i, head) && head != "") <==> Objection(w, STAGES[6]) == None && Objection(w, STAGES[7]) == None)
  {
    TopicsAndHeads(w);
    hide Providing, TopicOf, HeadProtocolOf;
    if OnTopic(w, i) && Objection(w, STAGES[6]) == None && Objection(w, STAGES[7]) == None {
      assert Heads(w, i, HeadOf(w));
    }
  }
}
