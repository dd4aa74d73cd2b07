/** `MysqlConnectPool` as a monitor: threads borrow connections under a mutex, wait on a condition variable while there
    is none, and give connections back through the deleter, which notifies one waiter. */
module MysqlConnectPools {
  import opened Seqs
  import opened Integers

  /** A connection, by identity, and when it was last used, in milliseconds. */
  datatype Conn = Conn(id: nat, last: int)

  /** Whole seconds, truncated toward zero, as duration_cast does. */
  function Seconds(ms: int): (s: int)
  {
    TruncDiv(ms, 1000)
  }

  predicate Expired(c: Conn, now: int, idleTime: nat)
  {
    Seconds(now - c.last) >= idleTime
  }

  /** The connection handed out in place of `c`: itself, or a new one if it was idle too long. */
  function Renewed(c: Conn, now: int, newId: nat, idleTime: nat): (r: Conn)
    ensures idleTime > 0 ==> !Expired(r, now, idleTime)
  {
    if Expired(c, now, idleTime) then Conn(newId, now) else c
  }

  // ----- specification: the pool and all threads -----

  datatype Loan = Loan(thread: nat, conn: Conn)

  datatype Monitor = Monitor(
    size: nat, idleTime: nat, idle: seq<Conn>, lent: seq<Loan>,
    blocked: set<nat>,     // threads asleep in the wait
    woken: set<nat>)       // threads woken and not yet holding the mutex again

  datatype Event =
    | Enter(thread: nat, now: int, newId: nat)       // getConn takes the mutex and tests the queue
    | SpuriousWake(thread: nat)
    | Recheck(thread: nat, now: int, newId: nat)     // a woken thread has the mutex again and tests the queue
    | Return(loan: nat, now: int, notified: Option<nat>)

  /** A new pool: different connections, all idle, and no thread waiting. */
  ghost predicate AllIdle(m: Monitor)
  {
    && |m.idle| == m.size && m.lent == [] && m.blocked == {} && m.woken == {}
    && forall i, j :: 0 <= i < j < |m.idle| ==> m.idle[i].id != m.idle[j].id
  }

  /** Identities in use when a connection is made in place of the one in front: all the others. */
  predicate FreshId(m: Monitor, id: nat)
  {
    && (forall i :: 1 <= i < |m.idle| ==> m.idle[i].id != id)
    && (forall l <- m.lent :: l.conn.id != id)
  }

  predicate Enabled(m: Monitor, e: Event)
  {
    match e
    case Enter(t, _, newId) => t !in m.blocked && t !in m.woken && FreshId(m, newId)
    case SpuriousWake(t) => t in m.blocked
    case Recheck(t, _, newId) => t in m.woken && FreshId(m, newId)
    case Return(i, _, notified) =>
      i < |m.lent| && (if m.blocked == {} then notified == None else notified.Some? && notified.value in m.blocked)
  }

  /** A thread with the mutex takes the front connection or goes to sleep. */
  function TakeOrBlock(m: Monitor, t: nat, now: int, newId: nat): (r: Monitor)
  {
    if m.idle == [] then m.(blocked := m.blocked + {t}, woken := m.woken - {t})
    else m.(idle := m.idle[1..], woken := m.woken - {t},
            lent := m.lent + [Loan(t, Renewed(m.idle[0], now, newId, m.idleTime))])
  }

  function Next(m: Monitor, e: Event): (r: Monitor)
    requires Enabled(m, e)
  {
    match e
    case Enter(t, now, newId) => TakeOrBlock(m, t, now, newId)
    case SpuriousWake(t) => m.(blocked := m.blocked - {t}, woken := m.woken + {t})
    case Recheck(t, now, newId) => TakeOrBlock(m, t, now, newId)
    case Return(i, now, notified) =>
      var v := m.(idle := m.idle + [m.lent[i].conn.(last := now)], lent := m.lent[..i] + m.lent[i + 1..]);
      if notified == None then v
      else v.(blocked := v.blocked - {notified.value}, woken := v.woken + {notified.value})
  }

  predicate Run(m: Monitor, es: seq<Event>)
    decreases |es|
  {
    es == [] || (Enabled(m, es[0]) && Run(Next(m, es[0]), es[1..]))
  }

  function After(m: Monitor, es: seq<Event>): (r: Monitor)
    requires Run(m, es)
    decreases |es|
  {
    if es == [] then m else After(Next(m, es[0]), es[1..])
  }

  // ----- the class -----

  /** While a thread sleeps: what the others do until it is woken and holds the mutex again, and then the time and the
      identity of a connection made anew. */
  datatype Round = Round(others: seq<Event>, now: int, newId: nat)

  /** The events are possible, and none is a step of `t` itself. */
  predicate ByOthers(m: Monitor, t: nat, es: seq<Event>)
  {
    Run(m, es) && forall e <- es :: !(e.Recheck? && e.thread == t)
  }

  /** For as long as `t` finds no connection, each round wakes it. */
  predicate Wakes(m: Monitor, t: nat, rounds: seq<Round>)
    decreases |rounds|
  {
    t in m.blocked && rounds != [] ==>
      var r := rounds[0];
      ByOthers(m, t, r.others) &&
      var v := After(m, r.others);
      Enabled(v, Recheck(t, r.now, r.newId)) && Wakes(Next(v, Recheck(t, r.now, r.newId)), t, rounds[1..])
  }

  /** The steps of getConn of thread `t` and of the others up to its last look at the queue. */
  function Turns(t: nat, now: int, newId: nat, rounds: seq<Round>): (es: seq<Event>)
    decreases |rounds|
  {
    if rounds == [] then [Enter(t, now, newId)]
    else
      var last := rounds[|rounds| - 1];
      Turns(t, now, newId, rounds[..|rounds| - 1]) + last.others + [Recheck(t, last.now, last.newId)]
  }

  function AllButLast(es: seq<Event>): (r: seq<Event>)
    requires es != []
  {
    es[..|es| - 1]
  }

  /** Idle too long, in milliseconds.  With an idle time of zero everything is, down to a second in the future. */
  predicate TooLong(idle: int, idleTime: nat)
  {
    if idleTime > 0 then idle >= 1000 * idleTime else idle > -1000
  }

  /** What is lent with `front` first in the queue: a new connection if that was idle too long, else that very one. */
  predicate LentFor(front: Conn, lent: Conn, now: int, newId: nat, idleTime: nat)
  {
    lent == if TooLong(now - front.last, idleTime) then Conn(newId, now) else front
  }

  lemma LentExactly(front: Conn, now: int, newId: nat, idleTime: nat)
    ensures LentFor(front, Renewed(front, now, newId, idleTime), now, newId, idleTime)
  {
  }

  class MysqlConnectPool {
    const size: nat
    const idleTime: nat
    var connects: seq<Conn>
    var lent: seq<Loan>        // what the pointers handed out hold, until the deleter runs
    var blocked: set<nat>      // the threads waiting on the condition variable
    var woken: set<nat>        // the threads notified that wait for the mutex

    ghost function View(): (m: Monitor)
      reads this
    {
      Monitor(size, idleTime, connects, lent, blocked, woken)
    }

    constructor (size: nat, idleTime: nat, now: int)
      ensures View().size == size && View().idleTime == idleTime
      ensures AllIdle(View()) && forall c <- connects :: c.last == now
    {
      this.size, this.idleTime := size, idleTime;
      connects, lent, blocked, woken := [], [], {}, {};
      new;
      for i := 0 to size
        invariant |connects| == i && lent == [] && blocked == {} && woken == {}
        invariant forall j :: 0 <= j < i ==> connects[j] == Conn(j, now)
      {
        connects := connects + [Conn(i, now)];
      }
    }

    /** Thread `t` finds the queue empty and waits. */
    method Sleep(t: nat)
      requires connects == []
      modifies this`blocked, this`woken
      ensures forall now, newId :: View() == TakeOrBlock(old(View()), t, now, newId)
    {
      blocked, woken := blocked + {t}, woken - {t};
    }

    /** The rest of getConn once the wait is over; `newId` is the identity of a connection made anew. */
    method TakeFront(t: nat, now: int, newId: nat) returns (c: Conn)
      requires connects != []
      modifies this`connects, this`lent, this`woken
      ensures View() == TakeOrBlock(old(View()), t, now, newId)
      ensures lent == old(lent) + [Loan(t, c)] && LentFor(old(connects)[0], c, now, newId, idleTime)
    {
      LentExactly(connects[0], now, newId, idleTime);
      c := connects[0];
      connects := connects[1..];
      var difSecs := Seconds(now - c.last);
      if difSecs >= idleTime {
        c := Conn(newId, now);
      }
      lent, woken := lent + [Loan(t, c)], woken - {t};
    }

    /** The deleter of the i-th connection lent; it notifies one of the threads waiting, if there are any. */
    method GiveBack(i: nat, now: int, notified: Option<nat>)
      requires Enabled(View(), Return(i, now, notified))
      modifies this`connects, this`lent, this`blocked, this`woken
      ensures View() == Next(old(View()), Return(i, now, notified))
      ensures connects == old(connects) + [old(lent)[i].conn.(last := now)]
      ensures multiset(lent) == multiset(old(lent)) - multiset{old(lent)[i]}
    {
      RemovedOne(lent, i);
      var c := lent[i].conn;
      lent := lent[..i] + lent[i + 1..];
      connects := connects + [c.(last := now)];
      if notified.Some? {
        Wake(notified.value);
      }
    }

    method Wake(t: nat)
      requires t in blocked
      modifies this`blocked, this`woken
      ensures View() == Next(old(View()), SpuriousWake(t))
    {
      blocked, woken := blocked - {t}, woken + {t};
    }

    /** What some thread does next. */
    method Perform(e: Event)
      requires Enabled(View(), e)
      modifies this
      ensures View() == Next(old(View()), e)
    {
      match e
      case Enter(t, now, newId) => TakeOrSleep(t, now, newId);
      case SpuriousWake(t) => Wake(t);
      case Recheck(t, now, newId) => TakeOrSleep(t, now, newId);
      case Return(i, now, notified) => GiveBack(i, now, notified);
    }

    method TakeOrSleep(t: nat, now: int, newId: nat)
      modifies this
      ensures View() == TakeOrBlock(old(View()), t, now, newId)
    {
      if connects == [] {
        Sleep(t);
      } else {
        var _ := TakeFront(t, now, newId);
      }
    }

    method PerformAll(es: seq<Event>)
      requires Run(View(), es)
      modifies this
      ensures View() == After(old(View()), es)
    {
      for i := 0 to |es|
        invariant Run(View(), es[i..])
        invariant After(View(), es[i..]) == After(old(View()), es)
      {
        assert es[i..][0] == es[i] && es[i..][1..] == es[i + 1..];
        Perform(es[i]);
      }
    }

    /** getConn of thread `t`, with what the others do while it waits: the connection and how often `t` slept, or None
        if it still sleeps after all rounds.  It is a run of the monitor in which `t` took every turn it was given, and
        ends with the connection that was in front at the last of them, or a new one if that was idle too long, lent to
        `t` and, if the pool was in order before, to nobody else. */
    method GetConn(t: nat, now: int, newId: nat, rounds: seq<Round>) returns (c: Option<Conn>, waits: nat)
      requires Enabled(View(), Enter(t, now, newId)) && Wakes(Next(View(), Enter(t, now, newId)), t, rounds)
      modifies this
      ensures waits <= |rounds| && Run(old(View()), Turns(t, now, newId, rounds[..waits]))
      ensures View() == After(old(View()), Turns(t, now, newId, rounds[..waits]))
      ensures c.None? ==> waits == |rounds| && t in blocked && connects == []
      ensures c.Some? ==> t !in woken && lent != [] && lent[|lent| - 1] == Loan(t, c.value)
      ensures c.Some? ==> Run(old(View()), AllButLast(Turns(t, now, newId, rounds[..waits])))
      ensures c.Some? ==>
                var m := After(old(View()), AllButLast(Turns(t, now, newId, rounds[..waits])));
                && m.idle != [] && connects == m.idle[1..]
                && if waits == 0 then LentFor(m.idle[0], c.value, now, newId, idleTime)
                   else LentFor(m.idle[0], c.value, rounds[waits - 1].now, rounds[waits - 1].newId, idleTime)
      ensures Inv(old(View())) ==> Inv(View()) && (c.Some? ==> t !in blocked)
    {
      ghost var before := View();
      var at, id := now, newId;
      ghost var turn := Enter(t, now, newId);
      ghost var done := [];
      waits := 0;
      while connects == []
        invariant waits <= |rounds| && at == (if waits == 0 then now else rounds[waits - 1].now)
        invariant id == if waits == 0 then newId else rounds[waits - 1].newId
        invariant turn == (if waits == 0 then Enter(t, at, id) else Recheck(t, at, id))
        invariant Run(before, done) && View() == After(before, done)
        invariant done + [turn] == Turns(t, now, newId, rounds[..waits])
        invariant Enabled(View(), turn) && Wakes(Next(View(), turn), t, rounds[waits..])
        decreases |rounds| - waits
      {
        RunSnoc(before, done, turn);
        Sleep(t);
        if waits == |rounds| {
          KeepsInv(before, done + [turn]);
          return None, waits;
        }
        var r := rounds[waits];
        assert rounds[waits..][0] == r && rounds[waits..][1..] == rounds[waits + 1..];
        TurnsSnoc(t, now, newId, rounds, waits);
        RunConcat(before, done + [turn], r.others);
        PerformAll(r.others);
        done, turn := done + [turn] + r.others, Recheck(t, r.now, r.newId);
        at, id, waits := r.now, r.newId, waits + 1;
      }
      KeepsInv(before, done);
      RunSnoc(before, done, turn);
      ghost var m := View();
      assert AllButLast(done + [turn]) == done && m == After(before, done);
      var conn := TakeFront(t, at, id);
      KeepsInv(before, done + [turn]);
      c := Some(conn);
    }
  }

  // ----- runs and turns -----

  lemma {:induction false} RunConcat(m: Monitor, es: seq<Event>, more: seq<Event>)
    requires Run(m, es) && Run(After(m, es), more)
    ensures Run(m, es + more) && After(m, es + more) == After(After(m, es), more)
    decreases |es|
  {
    if es == [] {
      assert es + more == more;
    } else {
      DropOfPrefix(es, more, 1);
      var all := es + more;
      assert all[0] == es[0] && all[1..] == es[1..] + more;
      RunConcat(Next(m, es[0]), es[1..], more);
      assert Run(m, all) && After(m, all) == After(Next(m, es[0]), all[1..]);
    }
  }

  lemma RunSnoc(m: Monitor, es: seq<Event>, e: Event)
    requires Run(m, es) && Enabled(After(m, es), e)
    ensures Run(m, es + [e]) && After(m, es + [e]) == Next(After(m, es), e)
  {
    var v := Next(After(m, es), e);
    assert [e][1..] == [] && Run(v, []);
    RunConcat(m, es, [e]);
  }

  lemma TurnsSnoc(t: nat, now: int, newId: nat, rounds: seq<Round>, i: nat)
    requires i < |rounds|
    ensures Turns(t, now, newId, rounds[..i + 1])
         == Turns(t, now, newId, rounds[..i]) + rounds[i].others + [Recheck(t, rounds[i].now, rounds[i].newId)]
  {
    assert rounds[..i + 1][..i] == rounds[..i];
  }

  lemma RemovedOne(lent: seq<Loan>, i: nat)
    requires i < |lent|
    ensures multiset(lent[..i] + lent[i + 1..]) == multiset(lent) - multiset{lent[i]}
  {
    assert lent == lent[..i] + [lent[i]] + lent[i + 1..];
  }

  // ----- conservation, exclusive loans, no lost wakeup -----

  /** No connection is in two places. */
  ghost predicate NoSharing(idle: seq<Conn>, lent: seq<Loan>)
  {
    && (forall i, j :: 0 <= i < j < |idle| ==> idle[i].id != idle[j].id)
    && (forall i, j :: 0 <= i < j < |lent| ==> lent[i].conn.id != lent[j].conn.id)
    && (forall i, j :: 0 <= i < |idle| && 0 <= j < |lent| ==> idle[i].id != lent[j].conn.id)
  }

  /** Idle and lent connections together are the pool, none is in two places or lent twice, and a thread asleep has at
      least as many woken ones ahead of it as there are idle connections. */
  ghost predicate Inv(m: Monitor)
  {
    && |m.idle| + |m.lent| == m.size
    && NoSharing(m.idle, m.lent)
    && m.blocked !! m.woken
    && (m.blocked != {} ==> |m.idle| <= |m.woken|)
  }

  lemma TakeKeepsNoSharing(idle: seq<Conn>, lent: seq<Loan>, loan: Loan)
    requires NoSharing(idle, lent) && idle != []
    requires (forall i :: 1 <= i < |idle| ==> idle[i].id != loan.conn.id)
    requires (forall l <- lent :: l.conn.id != loan.conn.id)
    ensures NoSharing(idle[1..], lent + [loan])
  {
  }

  lemma TakeKeepsInv(m: Monitor, t: nat, now: int, newId: nat)
    requires Inv(m) && FreshId(m, newId) && t !in m.blocked
    ensures Inv(TakeOrBlock(m, t, now, newId))
  {
    if m.idle != [] {
      TakeKeepsNoSharing(m.idle, m.lent, Loan(t, Renewed(m.idle[0], now, newId, m.idleTime)));
      if t in m.woken {
        assert m.woken == (m.woken - {t}) + {t};
      }
    }
  }

  lemma ReturnKeepsNoSharing(idle: seq<Conn>, lent: seq<Loan>, i: nat, c: Conn)
    requires NoSharing(idle, lent) && i < |lent| && c.id == lent[i].conn.id
    ensures NoSharing(idle + [c], lent[..i] + lent[i + 1..])
  {
    var lent' := lent[..i] + lent[i + 1..];
    assert forall j :: 0 <= j < i ==> lent'[j] == lent[j];
    assert forall j :: i <= j < |lent'| ==> lent'[j] == lent[j + 1];
  }

  lemma ReturnKeepsInv(m: Monitor, i: nat, now: int, notified: Option<nat>)
    requires Inv(m) && Enabled(m, Return(i, now, notified))
    ensures Inv(Next(m, Return(i, now, notified)))
  {
    ReturnKeepsNoSharing(m.idle, m.lent, i, m.lent[i].conn.(last := now));
    if notified.Some? {
      assert |m.woken + {notified.value}| == |m.woken| + 1;
    }
  }

  lemma NextKeepsInv(m: Monitor, e: Event)
    requires Inv(m) && Enabled(m, e)
    ensures Inv(Next(m, e))
  {
    match e
    case Enter(t, now, newId) => TakeKeepsInv(m, t, now, newId);
    case SpuriousWake(t) => assert |Next(m, e).woken| == |m.woken| + 1;
    case Recheck(t, now, newId) => TakeKeepsInv(m, t, now, newId);
    case Return(i, now, notified) => ReturnKeepsInv(m, i, now, notified);
  }

  lemma {:induction false} RunKeepsInv(m: Monitor, es: seq<Event>)
    requires Inv(m) && Run(m, es)
    ensures Inv(After(m, es)) && After(m, es).size == m.size
    decreases |es|
  {
    if es == [] {
    } else {
      NextKeepsInv(m, es[0]);
      RunKeepsInv(Next(m, es[0]), es[1..]);
    }
  }

  lemma KeepsInv(m: Monitor, es: seq<Event>)
    requires Run(m, es)
    ensures Inv(m) ==> Inv(After(m, es))
  {
    if Inv(m) {
      RunKeepsInv(m, es);
    }
  }

  /** Over every interleaving that starts with all connections idle and nobody waiting: connections are conserved, no
      two loans share one, and a wakeup is never lost: while a thread sleeps the woken ones can account for every
      idle connection, so nobody is left asleep beside one when all woken threads have looked. */
  lemma PoolSafety(m: Monitor, es: seq<Event>)
    requires AllIdle(m) && Run(m, es)
    ensures var r := After(m, es);
            && |r.idle| + |r.lent| == m.size
            && (forall i, j :: 0 <= i < j < |r.lent| ==> r.lent[i].conn.id != r.lent[j].conn.id)
            && (forall c <- r.idle, l <- r.lent :: c.id != l.conn.id)
            && (r.blocked != {} ==> |r.idle| <= |r.woken|)
            && (r.blocked != {} && r.woken == {} ==> r.idle == [])
  {
    RunKeepsInv(m, es);
  }

  /** A woken thread that looks while a connection is idle gets one: the one in front unless that was idle too long. */
  lemma RecheckBorrows(m: Monitor, t: nat, now: int, newId: nat)
    requires Enabled(m, Recheck(t, now, newId)) && m.idle != []
    ensures var r := Next(m, Recheck(t, now, newId));
            && |r.lent| == |m.lent| + 1 && r.lent[|m.lent|].thread == t && t !in r.woken
            && LentFor(m.idle[0], r.lent[|m.lent|].conn, now, newId, m.idleTime)
            && (m.idleTime > 0 ==> !Expired(r.lent[|m.lent|].conn, now, m.idleTime))
  {
    LentExactly(m.idle[0], now, newId, m.idleTime);
  }

  // ----- connections are kept -----

  /** No connection in front when one is taken was idle too long. */
  predicate InUse(m: Monitor, es: seq<Event>)
    requires Run(m, es)
    decreases |es|
  {
    es == [] ||
    (&& ((es[0].Enter? || es[0].Recheck?) && m.idle != [] ==> !TooLong(es[0].now - m.idle[0].last, m.idleTime))
     && InUse(Next(m, es[0]), es[1..]))
  }

  function Ids(cs: seq<Conn>): (ids: multiset<nat>)
  {
    if cs == [] then multiset{} else multiset{cs[0].id} + Ids(cs[1..])
  }

  function LentIds(ls: seq<Loan>): (ids: multiset<nat>)
  {
    if ls == [] then multiset{} else multiset{ls[0].conn.id} + LentIds(ls[1..])
  }

  /** The identities of all connections, idle and lent. */
  function AllIds(m: Monitor): (ids: multiset<nat>)
  {
    Ids(m.idle) + LentIds(m.lent)
  }

  lemma {:induction false} IdsConcat(cs: seq<Conn>, ds: seq<Conn>)
    ensures Ids(cs + ds) == Ids(cs) + Ids(ds)
  {
    if cs == [] {
      assert cs + ds == ds;
    } else {
      DropOfPrefix(cs, ds, 1);
      IdsConcat(cs[1..], ds);
    }
  }

  lemma {:induction false} LentIdsConcat(ls: seq<Loan>, ks: seq<Loan>)
    ensures LentIds(ls + ks) == LentIds(ls) + LentIds(ks)
  {
    if ls == [] {
      assert ls + ks == ks;
    } else {
      DropOfPrefix(ls, ks, 1);
      LentIdsConcat(ls[1..], ks);
    }
  }

  lemma TakeKeepsIds(m: Monitor, t: nat, now: int, newId: nat)
    requires m.idle != [] ==> !TooLong(now - m.idle[0].last, m.idleTime)
    ensures AllIds(TakeOrBlock(m, t, now, newId)) == AllIds(m)
  {
    if m.idle != [] {
      LentExactly(m.idle[0], now, newId, m.idleTime);
      LentIdsConcat(m.lent, [Loan(t, m.idle[0])]);
      assert [Loan(t, m.idle[0])][1..] == [];
    }
  }

  lemma ReturnKeepsIds(m: Monitor, i: nat, now: int, notified: Option<nat>)
    requires Enabled(m, Return(i, now, notified))
    ensures AllIds(Next(m, Return(i, now, notified))) == AllIds(m)
  {
    var loan := m.lent[i];
    var c := loan.conn.(last := now);
    IdsConcat(m.idle, [c]);
    assert [c][1..] == [] && [loan][1..] == [];
    Split(m.lent, i);
    HeadTail(m.lent[i..]);
    assert m.lent[i..][1..] == m.lent[i + 1..];
    LentIdsConcat(m.lent[..i], m.lent[i..]);
    LentIdsConcat([loan], m.lent[i + 1..]);
    LentIdsConcat(m.lent[..i], m.lent[i + 1..]);
  }

  /** Over every run in which no connection is idle too long when its turn comes, the pool never reconnects: idle and
      lent together are the connections of the start. */
  lemma {:induction false} ConnectionsKept(m: Monitor, es: seq<Event>)
    requires Run(m, es) && InUse(m, es)
    ensures AllIds(After(m, es)) == AllIds(m)
    decreases |es|
  {
    if es == [] {
    } else {
      match es[0] {
        case Enter(t, now, newId) => TakeKeepsIds(m, t, now, newId);
        case SpuriousWake(_) =>
        case Recheck(t, now, newId) => TakeKeepsIds(m, t, now, newId);
        case Return(i, now, notified) => ReturnKeepsIds(m, i, now, notified);
      }
      ConnectionsKept(Next(m, es[0]), es[1..]);
    }
  }

  // ----- the oldest connection is in front -----

  function TimeOf(e: Event, clock: int): (t: int)
  {
    if e.SpuriousWake? then clock else e.now
  }

  /** The clock does not go back. */
  predicate Timely(clock: int, es: seq<Event>)
    decreases |es|
  {
    es == [] || (clock <= TimeOf(es[0], clock) && Timely(TimeOf(es[0], clock), es[1..]))
  }

  function ClockAfter(clock: int, es: seq<Event>): (t: int)
    decreases |es|
  {
    if es == [] then clock else ClockAfter(TimeOf(es[0], clock), es[1..])
  }

  ghost predicate OldestInFront(idle: seq<Conn>, clock: int)
  {
    && (forall i, j :: 0 <= i < j < |idle| ==> idle[i].last <= idle[j].last)
    && (forall i :: 0 <= i < |idle| ==> idle[i].last <= clock)
  }

  lemma ExpiresInOrder(idle: seq<Conn>, clock: int, idleTime: nat, i: nat)
    requires OldestInFront(idle, clock) && i < |idle| && Expired(idle[i], clock, idleTime)
    ensures Expired(idle[0], clock, idleTime)
  {
    assert i > 0 ==> idle[0].last <= idle[i].last;
  }

  /** While the clock does not go back the queue is ordered by last use, so a connection in front that is not stale
      means that none is: looking at the front alone is enough. */
  lemma {:induction false} FrontExpiresFirst(m: Monitor, clock: int, es: seq<Event>)
    requires OldestInFront(m.idle, clock) && Run(m, es) && Timely(clock, es)
    ensures OldestInFront(After(m, es).idle, ClockAfter(clock, es))
    ensures var r := After(m, es);
            r.idle != [] && !Expired(r.idle[0], ClockAfter(clock, es), m.idleTime) ==>
              forall c <- r.idle :: !Expired(c, ClockAfter(clock, es), m.idleTime)
    decreases |es|
  {
    if es == [] {
      forall i | 0 <= i < |m.idle| && Expired(m.idle[i], clock, m.idleTime)
        ensures Expired(m.idle[0], clock, m.idleTime)
      {
        ExpiresInOrder(m.idle, clock, m.idleTime, i);
      }
    } else {
      FrontExpiresFirst(Next(m, es[0]), TimeOf(es[0], clock), es[1..]);
    }
  }
}
