/** The check of one participant: a sequence of stages of which the first to object decides. */
module Targets {
  import opened Wrappers
  import opened Int64
  import opened Deals

  datatype Status =
    | StatusUnknown | StatusOK | StatusAPICallFailed | StatusInternalError | StatusUnknownRPCError
    | StatusNotMiner | StatusUnreachable | StatusUnaddressable | StatusUnindexed | StatusTopicMismatch
    | StatusEmptyHead | StatusGetHeadError | StatusAnnounceError | StatusUnidentifiable | StatusNoAddrInfo

  /** The empty string stands for the undefined CID. */
  type Cid = string

  datatype Error = HttpError(code: int) | RpcError(code: int) | OtherError(message: string)

  datatype AddrInfo = AddrInfo(peerId: string, addrs: seq<string>)

  datatype MinerPower = MinerPower(hasMinPower: bool, qualityAdjPower: string, rawBytePower: string)

  datatype Transport = Transport(name: string, addresses: seq<string>)

  /** A participant's record, as kept in memory. */
  datatype Record = Record(
    id: string,
    status: Status,
    addrInfo: Option<AddrInfo>,
    lastChecked: nat,
    errMessage: string,
    err: Option<Error>,
    topic: string,
    headProtocol: string,
    head: Cid,
    knownByIndexer: bool,
    protocols: seq<string>,
    agentVersion: string,
    agentShortVersion: string,
    transports: Option<seq<Transport>>,
    power: Option<MinerPower>,
    dealCount: int64,
    dealCountWithinDay: int64,
    dealCountWithinWeek: int64)

  const TRANSPORTS_PROTOCOL: string := "/fil/retrieval/transports/1.0.0"

  datatype AgentReply = NoAgent | NotText | Agent(version: string)

  /** Everything a check asks of the outside, as arbitrary answers. */
  datatype World = World(
    counts: map<string, DealCounts>,
    minerPower: Result<MinerPower, Error>,
    minerInfo: Result<Option<AddrInfo>, Error>,
    knownByIndexer: bool,
    connect: Option<Error>,
    protocols: Result<seq<string>, Error>,
    agent: AgentReply,
    shorten: string -> string,
    transports: Result<seq<Transport>, Error>,
    topicIn: string -> Option<string>,
    expectedTopic: string,
    getHead: string -> Result<Cid, Error>,
    announce: Cid -> Option<Error>,
    describe: Error -> string,
    now: nat)

  /** Target.supportsProtocolID. */
  method SupportsProtocolID(protocols: seq<string>, pid: string) returns (found: bool)
    ensures found <==> pid in protocols
  {
    for i := 0 to |protocols|
      invariant pid !in protocols[..i]
    {
      if protocols[i] == pid {
        return true;
      }
    }
    return false;
  }

  /* ----- What the stages make of the answers ----- */

  datatype Stage = GetInfo | Identify | Connect | ListProtocols | FindHeadProtocol | MatchTopic | GetHead | HaveHead | Announce

  const STAGES: seq<Stage> :=
    [GetInfo, Identify, Connect, ListProtocols, FindHeadProtocol, MatchTopic, GetHead, HaveHead, Announce]

  function Info(w: World): Option<AddrInfo> {
    if w.minerInfo.Ok? then w.minerInfo.value else None
  }

  function Protocols(w: World): seq<string> {
    if w.protocols.Ok? then w.protocols.value else []
  }

  /** The first of the protocols that carries a topic. */
  function FirstHeadProtocol(ps: seq<string>, topicIn: string -> Option<string>): (r: Option<string>)
    ensures r.Some? ==> exists i :: 0 <= i < |ps| && r == Some(ps[i]) && topicIn(ps[i]).Some? &&
                              forall j :: 0 <= j < i ==> topicIn(ps[j]) == None
    ensures r == None ==> forall p :: p in ps ==> topicIn(p) == None
  {
    if ps == [] then None
    else if topicIn(ps[0]).Some? then Some(ps[0])
    else
      var r := FirstHeadProtocol(ps[1..], topicIn);
      assert forall i :: 0 <= i < |ps| - 1 ==> ps[1..][i] == ps[i + 1];
      assert forall p :: p in ps ==> p == ps[0] || p in ps[1..];
      r
  }

  function HeadProtocolOf(w: World): string {
    FirstHeadProtocol(Protocols(w), w.topicIn).GetOr("")
  }

  function TopicOf(w: World): string {
    w.topicIn(HeadProtocolOf(w)).GetOr("")
  }

  function HeadOf(w: World): Cid {
    var r := w.getHead(HeadProtocolOf(w));
    if r.Ok? then r.value else ""
  }

  /** The status with which a stage objects, and the error if it has one; None lets the check pass. */
  function Objection(w: World, s: Stage): Option<(Status, Option<Error>)> {
    match s
    case GetInfo => InfoObjection(w.minerInfo)
    case Identify => AddressObjection(Info(w))
    case Connect => if w.connect.Some? then Some((StatusUnreachable, w.connect)) else None
    case ListProtocols => if w.protocols.Err? then Some((StatusUnreachable, Some(w.protocols.error))) else None
    case FindHeadProtocol =>
      if FirstHeadProtocol(Protocols(w), w.topicIn) == None then Some((StatusUnindexed, None)) else None
    case MatchTopic => if TopicOf(w) != w.expectedTopic then Some((StatusTopicMismatch, None)) else None
    case GetHead =>
      var r := w.getHead(HeadProtocolOf(w));
      if r.Err? then Some((StatusGetHeadError, Some(r.error))) else None
    case HaveHead => if HeadOf(w) == "" then Some((StatusEmptyHead, None)) else None
    case Announce =>
      var e := w.announce(HeadOf(w));
      if e.Some? then Some((StatusAnnounceError, e)) else None
  }

  function InfoObjection(r: Result<Option<AddrInfo>, Error>): Option<(Status, Option<Error>)> {
    match r
    case Ok(_) => None
    case Err(e) =>
      var status := match e
        case HttpError(_) => StatusAPICallFailed
        case RpcError(code) => if code == 1 then StatusNotMiner else StatusUnknownRPCError
        case OtherError(_) => StatusInternalError;
      Some((status, Some(e)))
  }

  function AddressObjection(info: Option<AddrInfo>): Option<(Status, Option<Error>)> {
    match info
    case None => Some((StatusNoAddrInfo, None))
    case Some(ai) =>
      if ai.peerId != "" && ai.addrs != [] then None
      else if ai.peerId != "" then Some((StatusUnaddressable, None))
      else if ai.addrs != [] then Some((StatusUnidentifiable, None))
      else Some((StatusNoAddrInfo, None))
  }

  /** How many stages let the check pass before one objects: all nine when none does. */
  function Passed(w: World, k: nat): (n: nat)
    requires k <= |STAGES|
    requires forall i :: 0 <= i < k ==> Objection(w, STAGES[i]) == None
    ensures k <= n <= |STAGES|
    ensures forall i :: 0 <= i < n ==> Objection(w, STAGES[i]) == None
    ensures n < |STAGES| ==> Objection(w, STAGES[n]).Some?
    decreases |STAGES| - k
  {
    if k == |STAGES| || Objection(w, STAGES[k]).Some? then k else Passed(w, k + 1)
  }

  function Verdict(w: World): (Status, Option<Error>) {
    var n := Passed(w, 0);
    if n == |STAGES| then (StatusOK, None) else Objection(w, STAGES[n]).value
  }

  /** The record that a check leaves: the verdict, and each answer that was asked for before it fell. */
  function Checked(id: string, w: World): Record {
    var n := Passed(w, 0);
    var (status, err) := Verdict(w);
    var counts := Lookup(w.counts, id);
    var ps := if n > 2 then Protocols(w) else [];
    var version := if n > 3 && w.agent.Agent? then w.agent.version else "";
    Record(
      id, status, Info(w), w.now,
      if err.Some? then w.describe(err.value) else "", err,
      if n > 4 then TopicOf(w) else "",
      if n > 4 then HeadProtocolOf(w) else "",
      if n > 5 then HeadOf(w) else "",
      n > 1 && w.knownByIndexer,
      ps,
      version,
      if n > 3 && w.agent.Agent? then w.shorten(version) else "",
      if n > 3 && TRANSPORTS_PROTOCOL in ps && w.transports.Ok? then Some(w.transports.value) else None,
      if w.minerPower.Ok? then Some(w.minerPower.value) else None,
      counts.count, counts.countWithinDay, counts.countWithinWeek)
  }

  class Target {
    const id: string
    var status: Status
    var addrInfo: Option<AddrInfo>
    var lastChecked: nat
    var errMessage: string
    var err: Option<Error>
    var topic: string
    var headProtocol: string
    var head: Cid
    var knownByIndexer: bool
    var protocols: seq<string>
    var agentVersion: string
    var agentShortVersion: string
    var transports: Option<seq<Transport>>
    var power: Option<MinerPower>
    var dealCount: int64
    var dealCountWithinDay: int64
    var dealCountWithinWeek: int64

    function Value(): Record
      reads this
    {
      Record(id, status, addrInfo, lastChecked, errMessage, err, topic, headProtocol, head, knownByIndexer, protocols,
             agentVersion, agentShortVersion, transports, power, dealCount, dealCountWithinDay, dealCountWithinWeek)
    }

    /** newTarget. */
    constructor (mid: string)
      ensures Value() == NewRecord(mid)
      ensures id == mid && status == StatusUnknown && err == None && errMessage == "" && lastChecked == 0
      ensures addrInfo == None && topic == headProtocol == head == "" && !knownByIndexer && protocols == []
      ensures agentVersion == agentShortVersion == "" && transports == None && power == None
      ensures dealCount == dealCountWithinDay == dealCountWithinWeek == 0
    {
      id := mid;
      status, addrInfo, lastChecked, errMessage, err := StatusUnknown, None, 0, "", None;
      topic, headProtocol, head, knownByIndexer := "", "", "", false;
      protocols, agentVersion, agentShortVersion, transports, power := [], "", "", None, None;
      dealCount, dealCountWithinDay, dealCountWithinWeek := 0, 0, 0;
    }

    /** Target.check on a new target; announced lists the heads sent to the indexer. */
    method Check(w: World) returns (announced: seq<Cid>)
      requires Value() == NewRecord(id)
      modifies this
      ensures Value() == Checked(id, w)
      ensures announced == if Passed(w, 0) >= 8 then [HeadOf(w)] else []
    {
      announced := CheckStages(w);
      lastChecked := w.now;
      if err.Some? {
        errMessage := w.describe(err.value);
      }
    }

    /** The body of check, up to the deferred bookkeeping. */
    method CheckStages(w: World) returns (announced: seq<Cid>)
      requires Value() == NewRecord(id)
      modifies this
      ensures Value() == BeforeBookkeeping(id, w)
      ensures announced == if Passed(w, 0) >= 8 then [HeadOf(w)] else []
    {
      announced := [];
      var decided := Resolve(w);
      if decided {
        return;
      }
      decided := Contact(w);
      if decided {
        return;
      }
      announced := AnnounceHead(w);
    }

    /** The participant's deals and power; a failure to learn the power is forgotten. */
    method LookUp(w: World)
      requires Value() == NewRecord(id)
      modifies this
      ensures Value() == Resolved(id, w).(addrInfo := None)
    {
      var counts := Lookup(w.counts, id);
      dealCount := counts.count;
      dealCountWithinDay := counts.countWithinDay;
      dealCountWithinWeek := counts.countWithinWeek;

      match w.minerPower {
        case Ok(p) => power, err := Some(p), None;
        case Err(e) => power, err := None, Some(e);
      }
      if err.Some? {
        err := None;
      }
    }

    /** Deals and power, and then the address of the participant, from the node. */
    method Resolve(w: World) returns (decided: bool)
      requires Value() == NewRecord(id)
      modifies this
      ensures decided <==> Passed(w, 0) < 2
      ensures Value() == if decided then BeforeBookkeeping(id, w) else Resolved(id, w)
    {
      StagesPass(w);
      hide Checked, BeforeBookkeeping, Passed, Verdict, HeadOf, TopicOf, HeadProtocolOf, FirstHeadProtocol;
      LookUp(w);
      match w.minerInfo {
        case Ok(ai) =>
          addrInfo, err := ai, None;
          if addrInfo == None {
            status := StatusNoAddrInfo;
            DecidedEarly(id, w, 1, status, err);
            return true;
          } else if addrInfo.value.peerId == "" && |addrInfo.value.addrs| == 0 {
            status := StatusNoAddrInfo;
            DecidedEarly(id, w, 1, status, err);
            return true;
          } else if addrInfo.value.peerId == "" {
            status := StatusUnidentifiable;
            DecidedEarly(id, w, 1, status, err);
            return true;
          } else if |addrInfo.value.addrs| == 0 {
            status := StatusUnaddressable;
            DecidedEarly(id, w, 1, status, err);
            return true;
          }
          return false;
        case Err(e) =>
          addrInfo, err := None, Some(e);
          match e {
            case HttpError(_) => status := StatusAPICallFailed;
            case RpcError(code) =>
              if code == 1 {
                status := StatusNotMiner;
              } else {
                status := StatusUnknownRPCError;
              }
            case OtherError(_) => status := StatusInternalError;
          }
          DecidedEarly(id, w, 0, status, err);
          return true;
      }
    }

    /** The indexer's knowledge of the participant, and what its own host tells. */
    method Contact(w: World) returns (decided: bool)
      requires Passed(w, 0) >= 2 && Value() == Resolved(id, w)
      modifies this
      ensures decided <==> Passed(w, 0) < 4
      ensures Value() == if decided then BeforeBookkeeping(id, w) else Contacted(id, w)
    {
      StagesPass(w);
      hide Checked, BeforeBookkeeping, Passed, Verdict, Contacted, InfoObjection, AddressObjection, HeadOf, TopicOf, HeadProtocolOf, FirstHeadProtocol;
      knownByIndexer := w.knownByIndexer;
      err := w.connect;
      if err.Some? {
        status := StatusUnreachable;
        DecidedEarly(id, w, 2, status, err);
        return true;
      }
      match w.protocols {
        case Ok(ps) => protocols := ps;
        case Err(e) =>
          protocols, err, status := [], Some(e), StatusUnreachable;
          DecidedEarly(id, w, 3, status, err);
          return true;
      }
      ReadHost(w);
      return false;
    }

    /** The host's agent version and transports, neither of which can fail the check. */
    method ReadHost(w: World)
      requires Value() == Resolved(id, w).(knownByIndexer := w.knownByIndexer, protocols := Protocols(w))
      modifies this
      ensures Value() == Contacted(id, w)
    {
      match w.agent {
        case Agent(version) =>
          agentVersion := version;
          agentShortVersion := w.shorten(agentVersion);
        case _ =>
      }
      var asks := SupportsProtocolID(protocols, TRANSPORTS_PROTOCOL);
      if asks {
        transports := if w.transports.Ok? then Some(w.transports.value) else None;
      }
    }

    /** The loop over the protocols, up to the first that carries a topic. */
    method FindTopic(w: World) returns (supportsHeadProtocol: bool)
      requires Value() == Contacted(id, w)
      modifies this`topic, this`headProtocol
      ensures supportsHeadProtocol <==> FirstHeadProtocol(Protocols(w), w.topicIn).Some?
      ensures if supportsHeadProtocol then topic == TopicOf(w) && headProtocol == HeadProtocolOf(w)
              else topic == headProtocol == ""
    {
      hide Objection;
      supportsHeadProtocol := false;
      for i := 0 to |protocols|
        invariant Value() == Contacted(id, w) && !supportsHeadProtocol
        invariant FirstHeadProtocol(protocols, w.topicIn) == FirstHeadProtocol(protocols[i..], w.topicIn)
      {
        var topicHere := w.topicIn(protocols[i]);
        supportsHeadProtocol, topic := topicHere.Some?, topicHere.GetOr("");
        if supportsHeadProtocol {
          headProtocol := protocols[i];
          break;
        }
        assert protocols[i..][1..] == protocols[i + 1..];
      }
    }

    /** The head protocol, its topic, and the announcement of a head. */
    method AnnounceHead(w: World) returns (announced: seq<Cid>)
      requires Passed(w, 0) >= 4 && Value() == Contacted(id, w)
      modifies this
      ensures Value() == BeforeBookkeeping(id, w)
      ensures announced == if Passed(w, 0) >= 8 then [HeadOf(w)] else []
    {
      StagesPass(w);
      hide Checked, BeforeBookkeeping, Passed, Verdict, InfoObjection, AddressObjection, HeadOf, FirstHeadProtocol;
      announced := [];
      var supportsHeadProtocol := FindTopic(w);
      if !supportsHeadProtocol {
        status := StatusUnindexed;
        DecidedLate(id, w, 4, status, err);
        return;
      }
      if topic != w.expectedTopic {
        status := StatusTopicMismatch;
        DecidedLate(id, w, 5, status, err);
        return;
      }
      PassedAtLeast(w, 6);
      announced := AnnounceAnyHead(w);
    }

    /** The head, fetched over the protocol found, and its announcement when it is defined. */
    method AnnounceAnyHead(w: World) returns (announced: seq<Cid>)
      requires Passed(w, 0) >= 6
      requires Value() == Contacted(id, w).(topic := TopicOf(w), headProtocol := HeadProtocolOf(w))
      modifies this
      ensures Value() == BeforeBookkeeping(id, w)
      ensures announced == if Passed(w, 0) >= 8 then [HeadOf(w)] else []
    {
      StagesPass(w);
      hide Checked, BeforeBookkeeping, Passed, Verdict, Contacted, InfoObjection, AddressObjection, TopicOf, HeadProtocolOf, FirstHeadProtocol;
      announced := [];
      match w.getHead(headProtocol) {
        case Err(e) =>
          head, err, status := "", Some(e), StatusGetHeadError;
          DecidedLate(id, w, 6, status, err);
        case Ok(c) =>
          head, err := c, None;
          if head == "" {
            status := StatusEmptyHead;
            DecidedLate(id, w, 7, status, err);
          } else {
            announced := announced + [head];
            err := w.announce(head);
            if err.Some? {
              status := StatusAnnounceError;
              DecidedLate(id, w, 8, status, err);
            } else {
              status := StatusOK;
              DecidedLate(id, w, 9, status, err);
            }
          }
      }
    }
  }

  ghost function BeforeBookkeeping(id: string, w: World): Record {
    Checked(id, w).(lastChecked := 0, errMessage := "")
  }

  /** The first stage to object is the k-th, with this status and error; or none is, and all is well. */
  ghost predicate DecidedAt(w: World, k: nat, status: Status, err: Option<Error>) {
    && k <= |STAGES|
    && (forall i :: 0 <= i < k ==> Objection(w, STAGES[i]) == None)
    && if k == |STAGES| then (status, err) == (StatusOK, None) else Objection(w, STAGES[k]) == Some((status, err))
  }

  lemma StagesPass(w: World)
    ensures forall i :: 0 <= i < Passed(w, 0) ==> Objection(w, STAGES[i]) == None
  {
  }

  lemma PassedAtLeast(w: World, k: nat)
    requires k <= |STAGES| && forall i :: 0 <= i < k ==> Objection(w, STAGES[i]) == None
    ensures Passed(w, 0) >= k
  {
    hide Objection;
  }

  lemma DecidedEarly(id: string, w: World, k: nat, status: Status, err: Option<Error>)
    requires k < 4 && DecidedAt(w, k, status, err)
    ensures Passed(w, 0) == k
    ensures BeforeBookkeeping(id, w) ==
              Resolved(id, w).(status := status, err := err, knownByIndexer := k >= 2 && w.knownByIndexer)
  {
    assert k == 3 ==> Protocols(w) == [];
    hide Objection;
  }

  lemma DecidedLate(id: string, w: World, k: nat, status: Status, err: Option<Error>)
    requires 4 <= k && DecidedAt(w, k, status, err)
    ensures Passed(w, 0) == k
    ensures BeforeBookkeeping(id, w) ==
              Contacted(id, w).(
                status := status, err := err,
                topic := if k > 4 then TopicOf(w) else "",
                headProtocol := if k > 4 then HeadProtocolOf(w) else "",
                head := if k > 5 then HeadOf(w) else "")
  {
    hide Objection;
  }

  /** The record when the address stage has passed. */
  ghost function Resolved(id: string, w: World): Record {
    var counts := Lookup(w.counts, id);
    NewRecord(id).(
      addrInfo := Info(w),
      power := if w.minerPower.Ok? then Some(w.minerPower.value) else None,
      dealCount := counts.count, dealCountWithinDay := counts.countWithinDay, dealCountWithinWeek := counts.countWithinWeek)
  }

  /** The record when the host has been reached and has listed its protocols. */
  ghost function Contacted(id: string, w: World): Record {
    var version := if w.agent.Agent? then w.agent.version else "";
    Resolved(id, w).(
      knownByIndexer := w.knownByIndexer,
      protocols := Protocols(w),
      agentVersion := version,
      agentShortVersion := if w.agent.Agent? then w.shorten(version) else "",
      transports := if TRANSPORTS_PROTOCOL in Protocols(w) && w.transports.Ok? then Some(w.transports.value) else None)
  }

  function NewRecord(mid: string): Record {
    Record(mid, StatusUnknown, None, 0, "", None, "", "", "", false, [], "", "", None, None, 0, 0, 0)
  }

  /* ----- What the verdicts mean ----- */

  /** The statuses that come with an error. */
  const ERROR_STATUSES: set<Status> := {
    StatusAPICallFailed, StatusInternalError, StatusUnknownRPCError, StatusNotMiner, StatusUnreachable,
    StatusGetHeadError, StatusAnnounceError
  }

  /** Every check gives a status; it is one of the seven of ERROR_STATUSES exactly when there is an
      error, and then the error has a message. It is OK exactly when a defined head was announced
      without an error. */
  lemma VerdictLaws(id: string, w: World)
    ensures
      var r := Checked(id, w);
      && r.status != StatusUnknown
      && (r.err.Some? <==> r.status in ERROR_STATUSES)
      && r.errMessage == (if r.err.Some? then w.describe(r.err.value) else "")
      && (r.status == StatusOK <==> Passed(w, 0) >= 8 && r.head != "" && w.announce(r.head) == None)
  {
    VerdictShape(w);
    hide Objection, Verdict, Passed;
  }

  lemma VerdictShape(w: World)
    ensures
      var (n, (status, err)) := (Passed(w, 0), Verdict(w));
      && status != StatusUnknown
      && (err.Some? <==> status in ERROR_STATUSES)
      && (status == StatusOK <==> n == |STAGES|)
      && (n >= 8 ==> HeadOf(w) != "")
      && (n == 8 ==> w.announce(HeadOf(w)).Some?)
      && (n == 9 ==> w.announce(HeadOf(w)) == None)
  {
    StagesPass(w);
    LastStages(w);
    var n := Passed(w, 0);
    if n < |STAGES| {
      ObjectionShape(w, STAGES[n]);
    }
    hide Objection, Passed, HeadOf;
    assert n >= 8 ==> Objection(w, STAGES[7]) == None;
    assert n >= 9 ==> Objection(w, STAGES[8]) == None;
  }

  lemma LastStages(w: World)
    ensures Objection(w, STAGES[7]) == None <==> HeadOf(w) != ""
    ensures Objection(w, STAGES[8]) == None <==> w.announce(HeadOf(w)) == None
  {
  }

  lemma ObjectionShape(w: World, s: Stage)
    requires Objection(w, s).Some?
    ensures
      var (status, err) := Objection(w, s).value;
      status != StatusUnknown && status != StatusOK && (err.Some? <==> status in ERROR_STATUSES)
  {
  }

  /** Nothing is recorded of a stage behind the one that decides. */
  lemma ZeroBehindTheDecider(id: string, w: World)
    ensures
      var r := Checked(id, w);
      && (r.status == StatusUnindexed || Passed(w, 0) < 4 ==> r.topic == r.headProtocol == r.head == "")
      && (r.status == StatusTopicMismatch ==> r.head == "")
      && (r.status in {StatusEmptyHead, StatusGetHeadError} ==> r.head == "" && r.topic == w.expectedTopic)
      && (r.head != "" ==> r.status in {StatusOK, StatusAnnounceError} && r.topic == w.expectedTopic)
  {
    StagesPass(w);
    StageStatus(w);
    hide Objection, Passed, TopicOf, HeadOf, HeadProtocolOf;
  }

  /** How far a check came, read off its status. */
  lemma StageStatus(w: World)
    ensures
      var (n, status) := (Passed(w, 0), Verdict(w).0);
      && (status == StatusUnindexed ==> n == 4)
      && (status == StatusTopicMismatch ==> n == 5)
      && (status in {StatusEmptyHead, StatusGetHeadError} ==> 6 <= n <= 7 && HeadOf(w) == "")
      && (n >= 8 ==> status in {StatusOK, StatusAnnounceError})
      && (n >= 6 ==> TopicOf(w) == w.expectedTopic)
      && (n == 6 || n == 7 ==> HeadOf(w) == "")
  {
    var n := Passed(w, 0);
    StagesPass(w);
    hide FirstHeadProtocol, TopicOf, HeadProtocolOf, Passed;
    assert n >= 6 ==> Objection(w, STAGES[5]) == None;
    if n < |STAGES| {
      assert Objection(w, STAGES[n]).Some?;
      var s := STAGES[n];
      assert s == GetInfo || s == Identify || s == Connect || s == ListProtocols || s == FindHeadProtocol
             || s == MatchTopic || s == GetHead || s == HaveHead || s == Announce;
    }
  }

  /** The first protocol that carries a topic settles it: a later one with the expected topic does not help. */
  lemma FirstTopicSettles(id: string, w: World, i: nat)
    requires Passed(w, 0) >= 4 && i < |Protocols(w)|
    requires w.topicIn(Protocols(w)[i]).Some? && forall j :: 0 <= j < i ==> w.topicIn(Protocols(w)[j]) == None
    ensures Checked(id, w).headProtocol == Protocols(w)[i]
    ensures Some(Checked(id, w).topic) == w.topicIn(Protocols(w)[i])
    ensures Checked(id, w).topic != w.expectedTopic <==> Checked(id, w).status == StatusTopicMismatch
  {
    FirstFound(Protocols(w), w.topicIn, i);
    StagesPass(w);
    TopicVerdict(w);
    hide FirstHeadProtocol, Objection, Passed;
  }

  lemma FirstFound(ps: seq<string>, topicIn: string -> Option<string>, i: nat)
    requires i < |ps| && topicIn(ps[i]).Some? && forall j :: 0 <= j < i ==> topicIn(ps[j]) == None
    ensures FirstHeadProtocol(ps, topicIn) == Some(ps[i])
  {
    assert ps[i] in ps;
    var k :| 0 <= k < |ps| && FirstHeadProtocol(ps, topicIn) == Some(ps[k]) && topicIn(ps[k]).Some? &&
             forall j :: 0 <= j < k ==> topicIn(ps[j]) == None;
    assert k == i;
  }

  /** Once a head protocol is found the topic decides whether the check goes on. */
  lemma TopicVerdict(w: World)
    requires Passed(w, 0) >= 4 && FirstHeadProtocol(Protocols(w), w.topicIn).Some?
    ensures Passed(w, 0) >= 5
    ensures TopicOf(w) != w.expectedTopic <==> Verdict(w).0 == StatusTopicMismatch
  {
    StagesPass(w);
    StageStatus(w);
    hide FirstHeadProtocol, TopicOf, HeadOf, HeadProtocolOf, InfoObjection, AddressObjection;
    var n := Passed(w, 0);
    assert n < |STAGES| ==> Objection(w, STAGES[n]).Some?;
    hide Passed;
  }
}
