// What messages do to the waiting list, stated without the requests they are
// turned into: one message at a time and over whole runs.
module MessageRuns {
  import opened Common
  import opened WaitingList
  import opened StableOrder
  import opened QueueRuns
  import opened Callbacks

  // The configuration lets a queueing message of this kind in.
  predicate Admits(conf: Config, info: UserInfo) {
    && !info.data.cancel
    && ((info.infoType.DanmuMsg? && conf.allowDanmu) || (info.infoType.SendGift? && conf.allowGift))
  }

  // The unit that an admitted message asks for.
  function UnitFor(conf: Config, info: UserInfo): Unit {
    Unit(info.data.uid, info.data.(weight := WeightOf(conf, info.data.fleetLv, info.infoType.SendGift?)))
  }

  // The unit with which a viewer is waiting, if any.
  function UnitOf(us: seq<Unit>, a: uint32): Option<Unit> {
    if IsWaiting(us, a) then Some(us[IndexOf(us, a)]) else None
  }

  // ----- One message -----

  // A cancellation takes the viewer out, and leaves the others and their order.
  lemma CancelRemoves(conf: Config, q: QState, info: UserInfo)
    requires WellFormed(q) && info.data.cancel
    ensures Received(conf, q, Some(info)).units == Without(q.units, info.data.uid)
    ensures IsWaiting(q.units, info.data.uid) ==> Received(conf, q, Some(info)).cache.None?
    ensures !IsWaiting(q.units, info.data.uid) ==> Received(conf, q, Some(info)) == q
  {
    var a := info.data.uid;
    if IsWaiting(q.units, a) {
      RemoveIsWithout(q.units, IndexOf(q.units, a));
    } else {
      WithoutAbsent(q.units, a);
    }
  }

  // A short read, and a message that is neither a cancellation nor admitted,
  // change nothing.
  lemma OthersChangeNothing(conf: Config, q: QState, message: Option<UserInfo>)
    requires WellFormed(q)
    requires message.Some? ==> !message.value.data.cancel && !Admits(conf, message.value)
    ensures Received(conf, q, message) == q
  {
  }

  // An admitted message of a waiting viewer replaces the viewer's data in place.
  lemma AdmittedUpdates(conf: Config, q: QState, info: UserInfo)
    requires WellFormed(q) && Admits(conf, info) && IsWaiting(q.units, info.data.uid)
    ensures Received(conf, q, Some(info)).units == Redata(q.units, info.data.uid, UnitFor(conf, info).data)
    ensures Received(conf, q, Some(info)).cache == Some(info.data.uid)
  {
    QueuesUp(conf, q, info, UnitFor(conf, info).data.weight);
    RedataIsUpdate(q.units, info.data.uid, UnitFor(conf, info).data);
  }

  lemma {:induction false} WithoutInserted(us: seq<Unit>, k: nat, u: Unit)
    requires k <= |us| && !IsWaiting(us, u.anchorage)
    ensures Without(InsertAt(us, k, u), u.anchorage) == us
  {
    if k == 0 {
      WithoutAbsent(us, u.anchorage);
      assert InsertAt(us, 0, u)[1..] == us;
    } else {
      assert InsertAt(us, k, u)[1..] == InsertAt(us[1..], k - 1, u);
      WithoutInserted(us[1..], k - 1, u);
    }
  }

  // An admitted message of an absent viewer adds the viewer and leaves the
  // others and their order, or is rejected and changes nothing.
  lemma AdmittedJoins(conf: Config, q: QState, info: UserInfo)
    requires WellFormed(q) && Admits(conf, info) && !IsWaiting(q.units, info.data.uid)
    ensures Rejects(q, UnitFor(conf, info).Weight()) ==> Received(conf, q, Some(info)) == q
    ensures !Rejects(q, UnitFor(conf, info).Weight()) ==>
              && Without(Received(conf, q, Some(info)).units, info.data.uid) == q.units
              && UnitOf(Received(conf, q, Some(info)).units, info.data.uid) == Some(UnitFor(conf, info))
              && Received(conf, q, Some(info)).cache == q.cache
  {
    var u := UnitFor(conf, info);
    QueuesUp(conf, q, info, u.Weight());
    RejectedIff(q, u.Weight());
    if !Rejects(q, u.Weight()) {
      var k := InsertPos(q, u.Weight()).value;
      InsertUnit(q.units, k, u);
      WithoutInserted(q.units, k, u);
      assert InsertAt(q.units, k, u)[k] == u;
      IndexOfUnique(InsertAt(q.units, k, u), k);
    }
  }

  // ----- Runs of messages -----

  function ReceivedAll(conf: Config, q: QState, infos: seq<UserInfo>): (q': QState)
    requires WellFormed(q)
    ensures WellFormed(q')
    decreases |infos|
  {
    if infos == [] then q
    else
      ReceivedWellFormed(conf, q, infos[0]);
      ReceivedAll(conf, Received(conf, q, Some(infos[0])), infos[1..])
  }

  lemma ReceivedWellFormed(conf: Config, q: QState, info: UserInfo)
    requires WellFormed(q)
    ensures WellFormed(Received(conf, q, Some(info)))
  {
    if RequestOf(conf, info).Some? {
      StepWellFormed(q, RequestOf(conf, info).value);
    }
  }

  // The requests that the messages are turned into have the same effect, so that
  // the theorems about runs of requests are about runs of messages.
  lemma {:induction false} MessagesAreRequests(conf: Config, q: QState, infos: seq<UserInfo>)
    requires WellFormed(q)
    ensures ReceivedAll(conf, q, infos) == Run(q, RequestsOf(conf, infos)).0
    decreases |infos|
  {
    if infos != [] {
      ReceivedWellFormed(conf, q, infos[0]);
      MessagesAreRequests(conf, Received(conf, q, Some(infos[0])), infos[1..]);
      var rest := RequestsOf(conf, infos[1..]);
      if RequestOf(conf, infos[0]).Some? {
        assert ([RequestOf(conf, infos[0]).value] + rest)[1..] == rest;
      }
    }
  }

  // The viewer's last message that is a cancellation or admitted.
  function LastAccepted(conf: Config, infos: seq<UserInfo>, a: uint32): Option<UserInfo> {
    if infos == [] then None
    else
      var later := LastAccepted(conf, infos[1..], a);
      if later.Some? then later
      else if infos[0].data.uid == a && (infos[0].data.cancel || Admits(conf, infos[0])) then Some(infos[0])
      else None
  }

  // What the viewer is due: what the last accepted message asked for.
  function Due(conf: Config, before: Option<Unit>, last: Option<UserInfo>): Option<Unit> {
    match last
    case None => before
    case Some(info) => if info.data.cancel then None else Some(UnitFor(conf, info))
  }

  lemma {:induction false} WithoutKeepsUnit(us: seq<Unit>, a: uint32, b: uint32)
    requires a != b
    ensures UnitOf(Without(us, a), b) == UnitOf(us, b)
  {
    if us != [] {
      WithoutKeepsUnit(us[1..], a, b);
    }
  }

  lemma {:induction false} WithoutHasNone(us: seq<Unit>, a: uint32)
    ensures UnitOf(Without(us, a), a).None?
  {
    if us != [] {
      WithoutHasNone(us[1..], a);
    }
  }

  // No message but the viewer's own changes with what a viewer is waiting.
  lemma OthersKeepUnit(conf: Config, q: QState, info: UserInfo, a: uint32)
    requires WellFormed(q) && info.data.uid != a
    ensures UnitOf(Received(conf, q, Some(info)).units, a) == UnitOf(q.units, a)
  {
    var q', b := Received(conf, q, Some(info)), info.data.uid;
    if info.data.cancel {
      CancelRemoves(conf, q, info);
      WithoutKeepsUnit(q.units, b, a);
    } else if !Admits(conf, info) {
      OthersChangeNothing(conf, q, Some(info));
    } else if IsWaiting(q.units, b) {
      AdmittedUpdates(conf, q, info);
      RedataIsUpdate(q.units, b, UnitFor(conf, info).data);
    } else {
      AdmittedJoins(conf, q, info);
      WithoutKeepsUnit(q'.units, b, a);
    }
  }

  // The viewer's own message gives the viewer what is due, unless it is
  // rejected.
  lemma OwnGivesDue(conf: Config, q: QState, info: UserInfo)
    requires WellFormed(q)
    ensures var a := info.data.uid;
            var unit := UnitOf(Received(conf, q, Some(info)).units, a);
            var due := Due(conf, UnitOf(q.units, a), LastAccepted(conf, [info], a));
            && (unit == due || unit.None?)
            && (NobodyTurnedAway(q, RequestsOf(conf, [info])) ==> unit == due)
  {
    var a := info.data.uid;
    assert [info][1..] == [];
    if info.data.cancel {
      CancelRemoves(conf, q, info);
      WithoutHasNone(q.units, a);
    } else if !Admits(conf, info) {
      OthersChangeNothing(conf, q, Some(info));
    } else if IsWaiting(q.units, a) {
      AdmittedUpdates(conf, q, info);
      RedataIsUpdate(q.units, a, UnitFor(conf, info).data);
    } else {
      AdmittedJoins(conf, q, info);
    }
  }

  lemma FirstTurnedAway(conf: Config, q: QState, infos: seq<UserInfo>)
    requires WellFormed(q) && infos != [] && NobodyTurnedAway(q, RequestsOf(conf, infos))
    ensures NobodyTurnedAway(q, RequestsOf(conf, [infos[0]]))
    ensures WellFormed(Received(conf, q, Some(infos[0])))
    ensures NobodyTurnedAway(Received(conf, q, Some(infos[0])), RequestsOf(conf, infos[1..]))
  {
    ReceivedWellFormed(conf, q, infos[0]);
    assert [infos[0]][1..] == [];
    var rest := RequestsOf(conf, infos[1..]);
    if RequestOf(conf, infos[0]).Some? {
      var op := RequestOf(conf, infos[0]).value;
      assert ([op] + rest)[1..] == rest && ([op] + [])[1..] == [];
    }
  }

  // Over any run of messages a viewer is waiting with what the last accepted
  // message asked for, or not at all: in particular not after a cancellation.
  // If nobody is turned away, exactly so.
  lemma {:induction false} WaitingAsAsked(conf: Config, q: QState, infos: seq<UserInfo>, a: uint32)
    requires WellFormed(q)
    ensures var unit := UnitOf(ReceivedAll(conf, q, infos).units, a);
            var due := Due(conf, UnitOf(q.units, a), LastAccepted(conf, infos, a));
            && (unit == due || unit.None?)
            && (NobodyTurnedAway(q, RequestsOf(conf, infos)) ==> unit == due)
    decreases |infos|
  {
    if infos != [] {
      var info, rest := infos[0], infos[1..];
      var q' := Received(conf, q, Some(info));
      ReceivedWellFormed(conf, q, info);
      WaitingAsAsked(conf, q', rest, a);
      if info.data.uid == a {
        OwnGivesDue(conf, q, info);
        assert [info][1..] == [];
      } else {
        OthersKeepUnit(conf, q, info, a);
      }
      if NobodyTurnedAway(q, RequestsOf(conf, infos)) {
        FirstTurnedAway(conf, q, infos);
      }
    }
  }

  // From the empty list: whoever's last accepted message is a cancellation, or
  // who sent none, is not waiting.
  lemma CancelledAreGone(conf: Config, infos: seq<UserInfo>, a: uint32)
    requires LastAccepted(conf, infos, a).None? || LastAccepted(conf, infos, a).value.data.cancel
    ensures !IsWaiting(ListAfter(conf, infos).units, a)
  {
    MessagesAreRequests(conf, EMPTY, infos);
    WaitingAsAsked(conf, EMPTY, infos, a);
  }

  // Unless somebody is turned away, the others are, with their last message's
  // data and weight.
  lemma OthersAreWaiting(conf: Config, infos: seq<UserInfo>, a: uint32)
    requires LastAccepted(conf, infos, a).Some? && !LastAccepted(conf, infos, a).value.data.cancel
    requires NobodyTurnedAway(EMPTY, RequestsOf(conf, infos))
    ensures UnitOf(ListAfter(conf, infos).units, a) == Some(UnitFor(conf, LastAccepted(conf, infos, a).value))
  {
    MessagesAreRequests(conf, EMPTY, infos);
    WaitingAsAsked(conf, EMPTY, infos, a);
  }
}
