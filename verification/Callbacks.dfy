// liveroom_info_recv of callbacks.c: from messages to weights to the waiting
// list, and the order viewers see in the end.
module Callbacks {
  import opened Common
  import opened WaitingList
  import opened StableOrder
  import opened QueueRuns
  import opened RepairedOrder
  import opened Qlist

  datatype InfoType = DanmuMsg | SendGift | OtherInfo

  datatype UserInfo = UserInfo(infoType: InfoType, data: UnitData)

  datatype Config = Config(captFirst: bool, allowDanmu: bool, allowGift: bool)

  const FLEET_LV_MAX := 4

  // The weight given to a message, in the 32-bit arithmetic of the source.
  function WeightOf(conf: Config, fleetLv: uint32, gift: bool): uint32 {
    if conf.captFirst && fleetLv != 0 then
      (FLEET_LV_MAX - fleetLv + 2 + (if gift then 3 else 0)) % TWO_32
    else if gift then 2
    else 1
  }

  // The eight weights that the comment in the source lists, with fleet priority
  // on, and the two without.
  lemma WeightTable(conf: Config)
    ensures WeightOf(conf, 0, false) == 1 && WeightOf(conf, 0, true) == 2
    ensures conf.captFirst ==> WeightOf(conf, 3, false) == 3 && WeightOf(conf, 2, false) == 4
    ensures conf.captFirst ==> WeightOf(conf, 1, false) == 5 && WeightOf(conf, 3, true) == 6
    ensures conf.captFirst ==> WeightOf(conf, 2, true) == 7 && WeightOf(conf, 1, true) == 8
    ensures !conf.captFirst ==> forall lv :: WeightOf(conf, lv, false) == 1 && WeightOf(conf, lv, true) == 2
  {
  }

  // The request a message makes of the list, if any.
  function RequestOf(conf: Config, info: UserInfo): Option<Op> {
    if info.data.cancel then Some(Cancel(info.data.uid))
    else
      match info.infoType
      case DanmuMsg =>
        if conf.allowDanmu
        then Some(QueueUp(info.data.uid, info.data.(weight := WeightOf(conf, info.data.fleetLv, false))))
        else None
      case SendGift =>
        if conf.allowGift
        then Some(QueueUp(info.data.uid, info.data.(weight := WeightOf(conf, info.data.fleetLv, true))))
        else None
      case OtherInfo => None
  }

  function Received(conf: Config, q: QState, message: Option<UserInfo>): QState
    requires q.cache.Some? ==> IsWaiting(q.units, q.cache.value)
  {
    if message.Some? && RequestOf(conf, message.value).Some?
    then Step(q, RequestOf(conf, message.value).value).0
    else q
  }

  lemma QueuesUp(conf: Config, q: QState, info: UserInfo, weight: uint32)
    requires WellFormed(q) && !info.data.cancel
    requires
      || (info.infoType.DanmuMsg? && conf.allowDanmu && weight == WeightOf(conf, info.data.fleetLv, false))
      || (info.infoType.SendGift? && conf.allowGift && weight == WeightOf(conf, info.data.fleetLv, true))
    ensures Received(conf, q, Some(info)) == AppendUpdated(q, info.data.uid, info.data.(weight := weight)).0
  {
  }

  class BliveQueue {
    var conf: Config
    const qlist: BliveQlist

    constructor (conf: Config)
      ensures qlist.Valid() && qlist.State() == EMPTY && this.conf == conf
    {
      this.conf := conf;
      qlist := new BliveQlist();
    }

    // liveroom_info_recv. `message` is None when the read from the socket is
    // short.
    method LiveroomInfoRecv(message: Option<UserInfo>)
      requires qlist.Valid()
      modifies qlist, qlist.listHead, qlist.nodes
      ensures WellFormed(old(qlist.State()))
      ensures qlist.Valid() && qlist.State() == Received(conf, old(qlist.State()), message)
      ensures forall n :: n in qlist.nodes ==> n in old(qlist.nodes) || fresh(n)
    {
      qlist.StateWellFormed();
      if message.None? {
        return;
      }
      Handle(message.value);
    }

    // From line 83 on.
    method Handle(message: UserInfo)
      requires qlist.Valid() && WellFormed(qlist.State())
      modifies qlist, qlist.listHead, qlist.nodes
      ensures qlist.Valid() && qlist.State() == Received(conf, old(qlist.State()), Some(message))
      ensures forall n :: n in qlist.nodes ==> n in old(qlist.nodes) || fresh(n)
    {
      var info := message;
      ghost var q := qlist.State();
      if info.data.cancel {
        var _ := qlist.Remove(info.data.uid);
        return;
      }
      match info.infoType
      case DanmuMsg =>
        var weight := 1;
        if !conf.allowDanmu {
          return;
        }
        if conf.captFirst && info.data.fleetLv != 0 {
          weight := (FLEET_LV_MAX - info.data.fleetLv + 2) % TWO_32;
        }
        QueuesUp(conf, q, info, weight);
        info := info.(data := info.data.(weight := weight));
        var _ := qlist.AppendUpdate(info.data.uid, info.data);
      case SendGift =>
        var weight := 2;
        if !conf.allowGift {
          return;
        }
        if conf.captFirst && info.data.fleetLv != 0 {
          weight := (FLEET_LV_MAX - info.data.fleetLv + 2 + 3) % TWO_32;
        }
        QueuesUp(conf, q, info, weight);
        info := info.(data := info.data.(weight := weight));
        var _ := qlist.AppendUpdate(info.data.uid, info.data);
      case OtherInfo =>
    }
  }

  // ----- End to end -----

  function RequestsOf(conf: Config, infos: seq<UserInfo>): seq<Op> {
    if infos == [] then []
    else
      match RequestOf(conf, infos[0])
      case Some(op) => [op] + RequestsOf(conf, infos[1..])
      case None => RequestsOf(conf, infos[1..])
  }

  // Governor above supervisor above captain above everybody else.
  function FleetRank(fleetLv: uint32): int {
    if fleetLv == 0 then 0 else FLEET_LV_MAX - fleetLv
  }

  // Queued by a danmu message, with a known fleet level.
  ghost predicate IsDanmuUnit(conf: Config, d: UnitData) {
    d.weight == WeightOf(conf, d.fleetLv, false) && d.fleetLv < FLEET_LV_MAX
  }

  // Cancellations, and danmu messages of viewers with a known fleet level.
  ghost predicate DanmuOnly(infos: seq<UserInfo>) {
    forall i :: 0 <= i < |infos| ==>
      infos[i].data.cancel || (infos[i].infoType.DanmuMsg? && infos[i].data.fleetLv < FLEET_LV_MAX)
  }

  lemma {:induction false} RequestsAreDanmu(conf: Config, infos: seq<UserInfo>)
    requires DanmuOnly(infos)
    ensures forall op :: op in RequestsOf(conf, infos) && op.QueueUp? ==> IsDanmuUnit(conf, op.data)
  {
    if infos != [] {
      RequestsAreDanmu(conf, infos[1..]);
    }
  }

  lemma {:induction false} ArrivalsAreDanmu(conf: Config, arrivals: seq<Unit>, ops: seq<Op>)
    requires forall u :: u in arrivals ==> IsDanmuUnit(conf, u.data)
    requires forall op :: op in ops && op.QueueUp? ==> IsDanmuUnit(conf, op.data)
    ensures forall u :: u in ReferenceRun(arrivals, ops).0 ==> IsDanmuUnit(conf, u.data)
    decreases |ops|
  {
    if ops != [] {
      if ops[0].Cancel? {
        WithoutMembers(arrivals, ops[0].anchorage);
      }
      assert ops[0] in ops;
      ArrivalsAreDanmu(conf, ReferenceStep(arrivals, ops[0]).0, ops[1..]);
    }
  }

  ghost function ListAfter(conf: Config, infos: seq<UserInfo>): QState {
    Run(EMPTY, RequestsOf(conf, infos)).0
  }

  ghost function ArrivalsAfter(conf: Config, infos: seq<UserInfo>): seq<Unit> {
    ReferenceRun([], RequestsOf(conf, infos)).0
  }

  lemma RankIsWeight(conf: Config, p: UnitData, r: UnitData)
    requires conf.captFirst && IsDanmuUnit(conf, p) && IsDanmuUnit(conf, r)
    ensures FleetRank(p.fleetLv) > FleetRank(r.fleetLv) <==> p.weight > r.weight
    ensures FleetRank(p.fleetLv) == FleetRank(r.fleetLv) <==> p.weight == r.weight
  {
  }

  // With fleet priority on, whatever else was received: of the admitted viewers
  // still waiting, those queued by danmu with a known fleet level stand by fleet
  // rank and, within a rank, by arrival.
  lemma FleetThenArrival(conf: Config, infos: seq<UserInfo>, p: Unit, r: Unit)
    requires conf.captFirst && StaysInPlace(EMPTY, [], RequestsOf(conf, infos))
    requires p in ArrivalsAfter(conf, infos) && IsDanmuUnit(conf, p.data)
    requires r in ArrivalsAfter(conf, infos) && IsDanmuUnit(conf, r.data)
    ensures Before(ListAfter(conf, infos).units, p.anchorage, r.anchorage) <==>
            FleetRank(p.data.fleetLv) > FleetRank(r.data.fleetLv) ||
            (FleetRank(p.data.fleetLv) == FleetRank(r.data.fleetLv) &&
             Before(ArrivalsAfter(conf, infos), p.anchorage, r.anchorage))
  {
    var ops := RequestsOf(conf, infos);
    RankIsWeight(conf, p.data, r.data);
    RunRefines(EMPTY, [], ops);
    ServedBefore(Run(EMPTY, ops).0.units, ReferenceRun([], ops).0, p, r);
  }

  lemma {:induction false} WaitingAreDanmu(conf: Config, arrivals: seq<Unit>, ops: seq<Op>)
    requires forall u :: u in arrivals ==> IsDanmuUnit(conf, u.data)
    requires forall op :: op in ops && op.QueueUp? ==> IsDanmuUnit(conf, op.data)
    ensures forall u :: u in ArrivalRun(arrivals, ops) ==> IsDanmuUnit(conf, u.data)
    decreases |ops|
  {
    if ops != [] {
      if ops[0].Cancel? {
        WithoutMembers(arrivals, ops[0].anchorage);
      }
      assert ops[0] in ops;
      WaitingAreDanmu(conf, ArrivalStep(arrivals, ops[0]), ops[1..]);
    }
  }

  // Those are all of them when only danmu messages with known levels were
  // received.
  lemma EverybodyIsDanmu(conf: Config, infos: seq<UserInfo>)
    requires DanmuOnly(infos)
    ensures forall u :: u in ArrivalsAfter(conf, infos) ==> IsDanmuUnit(conf, u.data)
    ensures forall u :: u in ArrivalRun([], RequestsOf(conf, infos)) ==> IsDanmuUnit(conf, u.data)
  {
    RequestsAreDanmu(conf, infos);
    ArrivalsAreDanmu(conf, [], RequestsOf(conf, infos));
    WaitingAreDanmu(conf, [], RequestsOf(conf, infos));
  }

  // With `>=` at qlist.c:121 the same holds of every viewer still waiting.
  lemma RepairedFleetThenArrival(conf: Config, infos: seq<UserInfo>, p: Unit, r: Unit)
    requires conf.captFirst && RepairedInPlace(EMPTY, [], RequestsOf(conf, infos))
    requires p in ArrivalRun([], RequestsOf(conf, infos)) && IsDanmuUnit(conf, p.data)
    requires r in ArrivalRun([], RequestsOf(conf, infos)) && IsDanmuUnit(conf, r.data)
    ensures Before(RepairedRun(EMPTY, RequestsOf(conf, infos)).0.units, p.anchorage, r.anchorage) <==>
            FleetRank(p.data.fleetLv) > FleetRank(r.data.fleetLv) ||
            (FleetRank(p.data.fleetLv) == FleetRank(r.data.fleetLv) &&
             Before(ArrivalRun([], RequestsOf(conf, infos)), p.anchorage, r.anchorage))
  {
    var ops := RequestsOf(conf, infos);
    RankIsWeight(conf, p.data, r.data);
    RepairedRunRefines(EMPTY, [], ops);
    ServedBefore(RepairedRun(EMPTY, ops).0.units, ArrivalRun([], ops), p, r);
  }

  ghost predicate AllWeigh(us: seq<Unit>, w: uint32) {
    forall u :: u in us ==> u.Weight() == w
  }

  lemma {:induction false} WithCommonWeight(us: seq<Unit>, w: uint32)
    requires AllWeigh(us, w)
    ensures WithWeight(us, w) == us
  {
    if us != [] {
      assert us[0] in us;
      WithCommonWeight(us[1..], w);
    }
  }

  lemma {:induction false} NobodyRejected(arrivals: seq<Unit>, ops: seq<Op>, w: uint32)
    requires AllWeigh(arrivals, w) && forall op :: op in ops && op.QueueUp? ==> op.data.weight == w
    ensures WeightsKept(arrivals, ops) && AllWeigh(ReferenceRun(arrivals, ops).0, w)
    ensures ErrUnknown !in ReferenceRun(arrivals, ops).1
    decreases |ops|
  {
    if ops != [] {
      if ops[0].Cancel? {
        WithoutMembers(arrivals, ops[0].anchorage);
      }
      assert ops[0] in ops;
      NobodyRejected(ReferenceStep(arrivals, ops[0]).0, ops[1..], w);
    }
  }

  // Cancellations and danmu messages, of any fleet level.
  ghost predicate NoGifts(infos: seq<UserInfo>) {
    forall i :: 0 <= i < |infos| ==> infos[i].data.cancel || infos[i].infoType.DanmuMsg?
  }

  lemma {:induction false} DanmuWeighsOne(conf: Config, infos: seq<UserInfo>)
    requires !conf.captFirst && NoGifts(infos)
    ensures forall op :: op in RequestsOf(conf, infos) && op.QueueUp? ==> op.data.weight == 1
  {
    if infos != [] {
      DanmuWeighsOne(conf, infos[1..]);
    }
  }

  // With fleet priority off, danmu requests are served first come first
  // served, and nobody is turned away.
  lemma FirstComeFirstServed(conf: Config, infos: seq<UserInfo>)
    requires !conf.captFirst && NoGifts(infos)
    ensures ListAfter(conf, infos).units == ArrivalsAfter(conf, infos)
    ensures ErrUnknown !in Run(EMPTY, RequestsOf(conf, infos)).1
  {
    var ops := RequestsOf(conf, infos);
    DanmuWeighsOne(conf, infos);
    NobodyRejected([], ops, 1);
    KeptWeightsStayInPlace(EMPTY, [], ops);
    ListIsStableSort(ops);
    var list, arrivals := ListAfter(conf, infos).units, ArrivalsAfter(conf, infos);
    SortMembers(list, arrivals);
    WithCommonWeight(list, 1);
    WithCommonWeight(arrivals, 1);
    assert WithWeight(list, 1) == WithWeight(arrivals, 1);
  }
}
