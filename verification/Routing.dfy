/** Chat servers, their sessions, the routes kept in Redis and the channels between the servers.  Handlers are atomic
    and interleave freely over any number of users, sessions and servers. */
module Routing {
  import opened Seqs
  import opened Forwarding

  datatype Session = Session(host: string, uid: string, token: string, isLogin: bool, forwardId: string)

  datatype Route = Route(host: string, uuid: string)

  /** What the histories know of a forwarded message: its number, the session that sent it, the addressee it was
      forwarded to, and, if it came from a complete SEND_MSG, the `toid` that request named. */
  datatype Tag = Tag(number: nat, from: string, to: string, asked: Option<string>)

  /** A published message not yet taken off its channel. */
  datatype Packet = Packet(host: string, fields: map<string, Json>, tag: Tag)

  /** A forwarded message handed to a session's sendData, with the uid that session had then. */
  datatype Delivery = Delivery(uuid: string, uid: string, out: Outgoing, tag: Tag)

  datatype World = World(
    sessions: map<string, Session>,   // open sessions of all servers, by uuid
    hosts: map<string, string>,       // every uuid ever given to a session, and that session's server
    routes: map<string, Route>,       // Redis: uid to host and uuid
    bus: seq<Packet>,
    log: seq<Delivery>,
    next: nat)                        // messages numbered so far

  const EMPTY_WORLD: World := World(map[], map[], map[], [], [], 0)

  datatype Event =
    | Accept(uuid: string, host: string)                        // a connection is given a session with a fresh uuid
    | Login(uuid: string, body: Body, approved: bool)           // approved: the status server's answer
    | Request(uuid: string, id: int, body: Body, dbOk: bool, remark: Option<string>)
    | Disconnect(uuid: string)                                  // a read error
    | Deliver(i: nat)                                           // the first packet of its channel is taken off

  // ----- specification of the handlers -----

  predicate Complete(id: int, body: Body)
  {
    && "uid" in body.fields && "token" in body.fields
    && (id == SEND_MSG ==> "toid" in body.fields && "text" in body.fields && "time" in body.fields)
    && (id == REQUEST_ADD_FRIEND ==> "remark" in body.fields && "apply" in body.fields && "toid" in body.fields)
    && (id == WHETHER_ACCEPT_ADD_FRIEND ==>
          "fromid" in body.fields && "remark" in body.fields && body.isAccept.Some?)
  }

  predicate Authentic(s: Session, body: Body)
  {
    s.uid == body.Text("uid") && s.token == body.Text("token")
  }

  /** Whom a complete, authentic request is to be forwarded to. */
  function Addressee(id: int, body: Body, dbOk: bool): (to: string)
  {
    if !dbOk then NOBODY
    else if id == WHETHER_ACCEPT_ADD_FRIEND then (if body.isAccept == Some(true) then body.Text("fromid") else NOBODY)
    else body.Text("toid")
  }

  /** A complete request with the wrong credentials fails; an incomplete one is answered and changes nothing. */
  predicate Fails(id: int, s: Session, body: Body)
  {
    Complete(id, body) && !Authentic(s, body)
  }

  function Handled(id: int, s: Session, body: Body, dbOk: bool): (r: Session)
  {
    if Complete(id, body) then s.(forwardId := Addressee(id, body, dbOk)) else s
  }

  function Closed(w: World, uuid: string): (r: World)
    requires uuid in w.sessions
  {
    var s := w.sessions[uuid];
    w.(routes := if s.isLogin then w.routes - {s.uid} else w.routes, sessions := w.sessions - {uuid})
  }

  predicate SessionAt(w: World, host: string, uuid: string)
  {
    uuid in w.sessions && w.sessions[uuid].host == host
  }

  /** Forwarding on behalf of session `s`, whose uuid is `from`: nothing without a route; to a session of the same
      server directly; else one packet on the other server's channel. */
  function ForwardedWorld(w: World, from: string, s: Session, id: int, body: Body, remark: Option<string>): (r: World)
  {
    if s.forwardId !in w.routes || (id == WHETHER_ACCEPT_ADD_FRIEND && remark == None) then w
    else
      var route := w.routes[s.forwardId];
      var item := Item(id, s.uid, s.forwardId, body, remark.UnwrapOr(""));
      var tag := TagOf(w.next, from, s, id, body);
      var v := w.(next := w.next + 1);
      if route.host != s.host then
        v.(bus := w.bus + [Packet(route.host, Published(Content(item), id, route.uuid), tag)])
      else if SessionAt(w, route.host, route.uuid) then
        v.(log := w.log + [Delivery(route.uuid, w.sessions[route.uuid].uid, LocalOutgoing(item), tag)])
      else w
  }

  function TagOf(number: nat, from: string, s: Session, id: int, body: Body): (t: Tag)
  {
    Tag(number, from, s.forwardId, if id == SEND_MSG && Complete(id, body) then Some(body.Text("toid")) else None)
  }

  function AfterRequest(w: World, uuid: string, id: int, body: Body, dbOk: bool, remark: Option<string>): (r: World)
    requires uuid in w.sessions && Forwarded(id)
  {
    var s := w.sessions[uuid];
    if Fails(id, s, body) then Closed(w, uuid)
    else
      var t := Handled(id, s, body, dbOk);
      var v := w.(sessions := w.sessions[uuid := t]);
      if t.forwardId == NOBODY then v else ForwardedWorld(v, uuid, t, id, body, remark)
  }

  predicate LoginSucceeds(body: Body, approved: bool)
  {
    "uid" in body.fields && "token" in body.fields && approved
  }

  function AfterLogin(w: World, uuid: string, body: Body, approved: bool): (r: World)
    requires uuid in w.sessions
  {
    if !LoginSucceeds(body, approved) then Closed(w, uuid)
    else
      var s := w.sessions[uuid];
      var uid := body.fields["uid"];
      w.(sessions := w.sessions[uuid := s.(uid := uid, token := body.fields["token"], isLogin := true)],
         routes := w.routes[uid := Route(s.host, uuid)])
  }

  function AfterDelivery(w: World, i: nat): (r: World)
    requires i < |w.bus|
  {
    var p := w.bus[i];
    var uuid := AddressedTo(p.fields);
    var v := w.(bus := w.bus[..i] + w.bus[i + 1..]);
    if SessionAt(w, p.host, uuid)
    then v.(log := w.log + [Delivery(uuid, w.sessions[uuid].uid, Received(p.fields), p.tag)])
    else v
  }

  predicate Enabled(w: World, e: Event)
  {
    match e
    case Accept(uuid, _) => uuid !in w.hosts
    case Login(uuid, _, _) => uuid in w.sessions
    case Request(uuid, id, _, _, _) => uuid in w.sessions && Forwarded(id)
    case Disconnect(uuid) => uuid in w.sessions
    case Deliver(i) => i < |w.bus| && forall j :: 0 <= j < i ==> w.bus[j].host != w.bus[i].host
  }

  function Next(w: World, e: Event): (r: World)
    requires Enabled(w, e)
  {
    match e
    case Accept(uuid, host) =>
      w.(sessions := w.sessions[uuid := Session(host, "", "", false, "")], hosts := w.hosts[uuid := host])
    case Login(uuid, body, approved) => AfterLogin(w, uuid, body, approved)
    case Request(uuid, id, body, dbOk, remark) => AfterRequest(w, uuid, id, body, dbOk, remark)
    case Disconnect(uuid) => Closed(w, uuid)
    case Deliver(i) => AfterDelivery(w, i)
  }

  // ----- the servers -----

  /** The tables of all servers.  Each method is one handler; the host a session belongs to is its server's name. */
  class Cluster {
    var sessions: map<string, Session>
    var hosts: map<string, string>
    var routes: map<string, Route>
    var bus: seq<Packet>
    var log: seq<Delivery>
    var next: nat

    ghost function View(): (w: World)
      reads this
    {
      World(sessions, hosts, routes, bus, log, next)
    }

    constructor ()
      ensures View() == EMPTY_WORLD
    {
      sessions, hosts, routes, bus, log, next := map[], map[], map[], [], [], 0;
    }

    method Accept(uuid: string, host: string)
      requires Enabled(View(), Event.Accept(uuid, host))
      modifies this`sessions, this`hosts
      ensures View() == Next(old(View()), Event.Accept(uuid, host))
    {
      hosts := hosts[uuid := host];
      sessions := sessions[uuid := Session(host, "", "", false, "")];
    }

    /** A complete USER_LOGIN_CHAT_SERVER request, with the close that follows a failure. */
    method ServeLogin(uuid: string, body: Body, approved: bool)
      requires Enabled(View(), Login(uuid, body, approved))
      modifies this
      ensures View() == Next(old(View()), Login(uuid, body, approved))
    {
      var success := HandingLogin(uuid, body, approved);
      if !success {
        Close(uuid);
      }
    }

    method HandingLogin(uuid: string, body: Body, approved: bool) returns (success: bool)
      requires uuid in sessions
      modifies this`sessions, this`routes
      ensures success == LoginSucceeds(body, approved)
      ensures !success ==> View() == old(View())
      ensures success ==> View() == AfterLogin(old(View()), uuid, body, approved)
    {
      var s := sessions[uuid];
      if "uid" !in body.fields || "token" !in body.fields {
        return false;
      }
      var uid := body.fields["uid"];
      var token := body.fields["token"];
      if !approved {
        return false;
      }
      s := s.(uid := uid, token := token);
      routes := routes[uid := Route(s.host, uuid)];
      s := s.(isLogin := true);
      sessions := sessions[uuid := s];
      return true;
    }

    /** One turn of the decode loop for a request that may be forwarded. */
    method ServeRequest(uuid: string, id: int, body: Body, dbOk: bool, remark: Option<string>)
      requires Enabled(View(), Request(uuid, id, body, dbOk, remark))
      modifies this
      ensures View() == Next(old(View()), Request(uuid, id, body, dbOk, remark))
    {
      var success := HandingRequest(uuid, id, body, dbOk);
      if !success {
        Close(uuid);
        return;
      }
      if sessions[uuid].forwardId == NOBODY {
        return;
      }
      var _ := ForwardMsg(uuid, id, body, remark);
    }

    /** The handlers sendMsg, requestAddFriend and whetherAcceptAddFriend. */
    method HandingRequest(uuid: string, id: int, body: Body, dbOk: bool) returns (success: bool)
      requires uuid in sessions && Forwarded(id)
      modifies this`sessions
      ensures success <==> !Fails(id, old(sessions)[uuid], body)
      ensures sessions == if success then old(sessions)[uuid := Handled(id, old(sessions)[uuid], body, dbOk)]
                          else old(sessions)
    {
      var s := sessions[uuid];
      assert sessions[uuid := s] == sessions;
      if id == SEND_MSG {
        if !VerifyFields(body, ["uid", "token", "toid", "text", "time"]) {
          return true;
        }
        if !Authentic(s, body) {
          return false;
        }
        s := s.(forwardId := if !dbOk then NOBODY else body.Text("toid"));
      } else if id == REQUEST_ADD_FRIEND {
        if !VerifyFields(body, ["uid", "token", "remark", "apply", "toid"]) {
          return true;
        }
        if !Authentic(s, body) {
          return false;
        }
        s := s.(forwardId := if dbOk then body.Text("toid") else NOBODY);
      } else {
        if !VerifyFields(body, ["uid", "token", "fromid", "remark"]) || body.isAccept == None {
          return true;
        }
        if !Authentic(s, body) {
          return false;
        }
        if !dbOk {
          s := s.(forwardId := NOBODY);
        } else {
          s := s.(forwardId := if body.isAccept.value then body.Text("fromid") else NOBODY);
        }
      }
      sessions := sessions[uuid := s];
      return true;
    }

    static predicate VerifyFields(body: Body, keys: seq<string>)
    {
      forall key <- keys :: key in body.fields
    }

    method ForwardMsg(uuid: string, id: int, body: Body, remark: Option<string>) returns (ok: bool)
      requires uuid in sessions && Forwarded(id)
      modifies this`bus, this`log, this`next
      ensures View() == ForwardedWorld(old(View()), uuid, sessions[uuid], id, body, remark)
    {
      var s := sessions[uuid];
      if s.forwardId !in routes {
        return false;
      }
      var route := routes[s.forwardId];
      if id == WHETHER_ACCEPT_ADD_FRIEND && remark == None {
        return false;
      }
      var value := Content(Item(id, s.uid, s.forwardId, body, remark.UnwrapOr("")));
      if route.host != s.host {
        value := Published(value, id, route.uuid);
      }
      if s.host == route.host {
        if route.uuid !in sessions || sessions[route.uuid].host != route.host {
          return false;
        }
        var out := Outgoing(GET_FRIEND_MSG, Obj(value));
        log := log + [Delivery(route.uuid, sessions[route.uuid].uid, out, TagOf(next, uuid, s, id, body))];
      } else {
        bus := bus + [Packet(route.host, value, TagOf(next, uuid, s, id, body))];
      }
      next := next + 1;
      return true;
    }

    method Close(uuid: string)
      requires uuid in sessions
      modifies this`routes, this`sessions
      ensures View() == Closed(old(View()), uuid)
    {
      var s := sessions[uuid];
      if s.isLogin {
        routes := routes - {s.uid};
      }
      sessions := sessions - {uuid};
    }

    /** One reply read by the subscriber loop of the packet's server. */
    method Subscribed(i: nat)
      requires Enabled(View(), Deliver(i))
      modifies this`bus, this`log
      ensures View() == Next(old(View()), Deliver(i))
    {
      var p := bus[i];
      bus := bus[..i] + bus[i + 1..];
      var uuid := AddressedTo(p.fields);
      if uuid in sessions && sessions[uuid].host == p.host {
        log := log + [Delivery(uuid, sessions[uuid].uid, Received(p.fields), p.tag)];
      }
    }
  }

  // ----- routes -----

  /** Every route names an open session, on that host, logged in as that uid. */
  ghost predicate NoDangling(w: World)
  {
    forall uid <- w.routes :: var r := w.routes[uid];
      SessionAt(w, r.host, r.uuid) && w.sessions[r.uuid].isLogin && w.sessions[r.uuid].uid == uid
  }

  /** A second login of a session under another uid while the route of the first still names that session. */
  predicate LeavesRouteBehind(w: World, e: Event)
  {
    && e.Login? && e.uuid in w.sessions && LoginSucceeds(e.body, e.approved)
    && var s := w.sessions[e.uuid];
       s.isLogin && s.uid != e.body.fields["uid"] && s.uid in w.routes && w.routes[s.uid].uuid == e.uuid
  }

  /** Every open session is on record with its server. */
  ghost predicate Known(w: World)
  {
    forall uuid <- w.sessions :: uuid in w.hosts && w.hosts[uuid] == w.sessions[uuid].host
  }

  /** Closing a session takes its route with it, so the others stay good. */
  lemma ClosedNoDangling(w: World, uuid: string)
    requires NoDangling(w) && uuid in w.sessions
    ensures NoDangling(Closed(w, uuid))
  {
  }

  lemma LoginNoDanglingIff(w: World, uuid: string, body: Body)
    requires NoDangling(w) && uuid in w.sessions && LoginSucceeds(body, true)
    ensures NoDangling(AfterLogin(w, uuid, body, true)) <==> !LeavesRouteBehind(w, Login(uuid, body, true))
  {
    var r := AfterLogin(w, uuid, body, true);
    var uid := w.sessions[uuid].uid;
    if LeavesRouteBehind(w, Login(uuid, body, true)) {
      assert uid in r.routes && r.routes[uid].uuid == uuid && r.sessions[uuid].uid != uid;
    }
  }

  lemma RequestNoDangling(w: World, uuid: string, id: int, body: Body, dbOk: bool, remark: Option<string>)
    requires NoDangling(w) && Known(w) && uuid in w.sessions && Forwarded(id)
    ensures NoDangling(AfterRequest(w, uuid, id, body, dbOk, remark))
    ensures Known(AfterRequest(w, uuid, id, body, dbOk, remark))
  {
    if Fails(id, w.sessions[uuid], body) {
      ClosedNoDangling(w, uuid);
    } else {
      var t := Handled(id, w.sessions[uuid], body, dbOk);
      var v := w.(sessions := w.sessions[uuid := t]);
      assert NoDangling(v);
      ForwardKeepsTables(v, uuid, t, id, body, remark);
    }
  }

  lemma ForwardKeepsTables(w: World, from: string, s: Session, id: int, body: Body, remark: Option<string>)
    ensures var r := ForwardedWorld(w, from, s, id, body, remark);
            r.sessions == w.sessions && r.routes == w.routes && r.hosts == w.hosts
  {
  }

  /** One step keeps every route good exactly unless it is such a second login. */
  lemma NoDanglingIff(w: World, e: Event)
    requires NoDangling(w) && Known(w) && Enabled(w, e)
    ensures NoDangling(Next(w, e)) <==> !LeavesRouteBehind(w, e)
    ensures Known(Next(w, e))
  {
    match e
    case Accept(_, _) =>
    case Login(uuid, body, approved) =>
      if LoginSucceeds(body, approved) {
        LoginNoDanglingIff(w, uuid, body);
      } else {
        ClosedNoDangling(w, uuid);
      }
    case Request(uuid, id, body, dbOk, remark) => RequestNoDangling(w, uuid, id, body, dbOk, remark);
    case Disconnect(uuid) => ClosedNoDangling(w, uuid);
    case Deliver(_) =>
  }

  /** Every open session that has logged in is the one its uid's route names. */
  ghost predicate AllRouted(w: World)
  {
    forall uuid <- w.sessions :: w.sessions[uuid].isLogin ==>
      w.sessions[uuid].uid in w.routes && w.routes[w.sessions[uuid].uid] == Route(w.sessions[uuid].host, uuid)
  }

  /** A login under a uid whose route names another session. */
  predicate StealsRoute(w: World, e: Event)
  {
    && e.Login? && e.uuid in w.sessions && LoginSucceeds(e.body, e.approved)
    && var uid := e.body.fields["uid"]; uid in w.routes && w.routes[uid].uuid != e.uuid
  }

  /** The converse of no dangling: users that are logged in stay reachable exactly unless a second session logs in
      under the same uid; then the first is cut off. */
  lemma AllRoutedIff(w: World, e: Event)
    requires NoDangling(w) && AllRouted(w) && Known(w) && Enabled(w, e)
    ensures AllRouted(Next(w, e)) <==> !StealsRoute(w, e)
  {
    var r := Next(w, e);
    if e.Request? && !Fails(e.id, w.sessions[e.uuid], e.body) {
      var t := Handled(e.id, w.sessions[e.uuid], e.body, e.dbOk);
      ForwardKeepsTables(w.(sessions := w.sessions[e.uuid := t]), e.uuid, t, e.id, e.body, e.remark);
    }
    if StealsRoute(w, e) {
      var first := w.routes[e.body.fields["uid"]].uuid;
      assert r.sessions[first].isLogin;
    }
  }

  // ----- messages -----

  /** The uid of a logged-in session never changes in this step. */
  predicate OneUid(w: World, e: Event)
  {
    e.Login? && e.uuid in w.sessions && LoginSucceeds(e.body, e.approved) && w.sessions[e.uuid].isLogin ==>
      w.sessions[e.uuid].uid == e.body.fields["uid"]
  }

  predicate Run(w: World, es: seq<Event>)
    decreases |es|
  {
    es == [] || (Enabled(w, es[0]) && Run(Next(w, es[0]), es[1..]))
  }

  function After(w: World, es: seq<Event>): (r: World)
    requires Run(w, es)
    decreases |es|
  {
    if es == [] then w else After(Next(w, es[0]), es[1..])
  }

  /** Each session logs in under one uid only. */
  predicate OneUidEach(w: World, es: seq<Event>)
    requires Run(w, es)
    decreases |es|
  {
    es == [] || (OneUid(w, es[0]) && OneUidEach(Next(w, es[0]), es[1..]))
  }

  /** A complete SEND_MSG is forwarded to nobody but the `toid` it names. */
  predicate Meant(t: Tag)
  {
    t.asked.Some? ==> t.to == t.asked.value
  }

  /** A packet names a session that, while it is open, is logged in on that host as the addressee. */
  ghost predicate WellAddressed(w: World, p: Packet)
  {
    && Meant(p.tag)
    && var uuid := AddressedTo(p.fields);
       && uuid in w.hosts
       && (uuid in w.sessions ==>
             w.sessions[uuid].host == p.host && w.sessions[uuid].isLogin && w.sessions[uuid].uid == p.tag.to)
  }

  ghost predicate RightRecipient(d: Delivery)
  {
    Meant(d.tag) && d.uid == d.tag.to
  }

  /** Every message number, delivered or under way, occurs once. */
  ghost predicate EachOnce(w: World)
  {
    && (forall d <- w.log :: d.tag.number < w.next)
    && (forall p <- w.bus :: p.tag.number < w.next)
    && (forall i, j :: 0 <= i < j < |w.log| ==> w.log[i].tag.number != w.log[j].tag.number)
    && (forall i, j :: 0 <= i < j < |w.bus| ==> w.bus[i].tag.number != w.bus[j].tag.number)
    && (forall d <- w.log, p <- w.bus :: d.tag.number != p.tag.number)
  }

  ghost predicate Inv(w: World)
  {
    && Known(w)
    && NoDangling(w)
    && (forall p <- w.bus :: WellAddressed(w, p))
    && (forall d <- w.log :: RightRecipient(d))
    && EachOnce(w)
  }

  lemma PacketKeepsInv(w: World, p: Packet)
    requires Inv(w) && WellAddressed(w, p) && p.tag.number == w.next
    ensures Inv(w.(bus := w.bus + [p], next := w.next + 1))
  {
    var r := w.(bus := w.bus + [p], next := w.next + 1);
    forall q | q in r.bus ensures WellAddressed(r, q) {
      assert q in w.bus || q == p;
      assert WellAddressed(w, q);
    }
  }

  lemma LocalKeepsInv(w: World, d: Delivery)
    requires Inv(w) && RightRecipient(d) && d.tag.number == w.next
    ensures Inv(w.(log := w.log + [d], next := w.next + 1))
  {
    var r := w.(log := w.log + [d], next := w.next + 1);
    forall p | p in r.bus ensures WellAddressed(r, p) {
      assert WellAddressed(w, p);
    }
    assert forall e <- r.log :: e in w.log || e == d;
  }

  lemma ForwardKeepsInv(w: World, from: string, s: Session, id: int, body: Body, remark: Option<string>)
    requires Inv(w) && Meant(TagOf(w.next, from, s, id, body)) && Forwarded(id)
    ensures Inv(ForwardedWorld(w, from, s, id, body, remark))
  {
    var r := ForwardedWorld(w, from, s, id, body, remark);
    if s.forwardId in w.routes && r != w {
      var route := w.routes[s.forwardId];
      PublishedIsRecovered(Item(id, s.uid, s.forwardId, body, remark.UnwrapOr("")), id, route.uuid);
      if route.host != s.host {
        PacketKeepsInv(w, r.bus[|w.bus|]);
      } else {
        LocalKeepsInv(w, r.log[|w.log|]);
      }
    }
  }

  lemma SameAddresses(w: World, r: World)
    requires Inv(w) && r.bus == w.bus && r.log == w.log && r.next == w.next
    requires Known(r) && w.hosts.Keys <= r.hosts.Keys
    requires NoDangling(r)
    requires forall uuid <- r.sessions :: uuid in w.hosts ==>
               && uuid in w.sessions && r.sessions[uuid].host == w.sessions[uuid].host
               && (w.sessions[uuid].isLogin ==>
                     r.sessions[uuid].isLogin && r.sessions[uuid].uid == w.sessions[uuid].uid)
    ensures Inv(r)
  {
    forall p | p in r.bus ensures WellAddressed(r, p) {
      assert WellAddressed(w, p);
    }
  }

  lemma RequestKeepsInv(w: World, uuid: string, id: int, body: Body, dbOk: bool, remark: Option<string>)
    requires Inv(w) && uuid in w.sessions && Forwarded(id)
    ensures Inv(AfterRequest(w, uuid, id, body, dbOk, remark))
  {
    var s := w.sessions[uuid];
    if Fails(id, s, body) {
      ClosedKeepsInv(w, uuid);
    } else {
      var t := Handled(id, s, body, dbOk);
      var v := w.(sessions := w.sessions[uuid := t]);
      SameAddresses(w, v);
      if t.forwardId != NOBODY {
        ForwardKeepsInv(v, uuid, t, id, body, remark);
      }
    }
  }

  lemma ClosedKeepsInv(w: World, uuid: string)
    requires Inv(w) && uuid in w.sessions
    ensures Inv(Closed(w, uuid))
  {
    SameAddresses(w, Closed(w, uuid));
  }

  /** Taking a packet off the bus leaves packets of the bus, none of that number. */
  lemma BusWithout(w: World, i: nat)
    requires EachOnce(w) && i < |w.bus|
    ensures var bus := w.bus[..i] + w.bus[i + 1..];
            && (forall p <- bus :: p in w.bus && p.tag.number != w.bus[i].tag.number)
            && (forall j, k :: 0 <= j < k < |bus| ==> bus[j].tag.number != bus[k].tag.number)
  {
    var bus := w.bus[..i] + w.bus[i + 1..];
    assert forall j :: 0 <= j < |bus| ==> bus[j] == w.bus[if j < i then j else j + 1];
  }

  lemma DeliveryKeepsInv(w: World, i: nat)
    requires Inv(w) && i < |w.bus|
    ensures Inv(AfterDelivery(w, i))
  {
    var p := w.bus[i];
    var r := AfterDelivery(w, i);
    BusWithout(w, i);
    assert WellAddressed(w, p);
    forall q | q in r.bus ensures WellAddressed(r, q) {
      assert WellAddressed(w, q);
    }
    assert forall d <- r.log :: d in w.log || d.tag == p.tag;
    forall d | d in r.log ensures RightRecipient(d) {
      assert d in w.log || d == r.log[|w.log|];
    }
  }

  lemma NextKeepsInv(w: World, e: Event)
    requires Inv(w) && Enabled(w, e) && OneUid(w, e)
    ensures Inv(Next(w, e))
  {
    match e
    case Accept(_, _) =>
      NoDanglingIff(w, e);
      SameAddresses(w, Next(w, e));
    case Login(uuid, body, approved) =>
      if LoginSucceeds(body, approved) {
        NoDanglingIff(w, e);
        SameAddresses(w, Next(w, e));
      } else {
        ClosedKeepsInv(w, uuid);
      }
    case Request(uuid, id, body, dbOk, remark) => RequestKeepsInv(w, uuid, id, body, dbOk, remark);
    case Disconnect(uuid) => ClosedKeepsInv(w, uuid);
    case Deliver(i) => DeliveryKeepsInv(w, i);
  }

  lemma {:induction false} RunKeepsInv(w: World, es: seq<Event>)
    requires Inv(w) && Run(w, es) && OneUidEach(w, es)
    ensures Inv(After(w, es))
    decreases |es|
  {
    if es == [] {
    } else {
      NextKeepsInv(w, es[0]);
      RunKeepsInv(Next(w, es[0]), es[1..]);
    }
  }

  /** If each session logs in under one uid: in every reachable state every route names an open session logged in as
      its uid, each forwarded message has been delivered at most once, and a complete SEND_MSG only to a session
      logged in as the `toid` it named, however late its packet was taken off the channel. */
  lemma RightRecipientOnce(es: seq<Event>)
    requires Run(EMPTY_WORLD, es) && OneUidEach(EMPTY_WORLD, es)
    ensures var w := After(EMPTY_WORLD, es);
            && NoDangling(w)
            && (forall i, j :: 0 <= i < j < |w.log| ==> w.log[i].tag.number != w.log[j].tag.number)
            && (forall d <- w.log :: d.tag.asked.Some? ==> d.uid == d.tag.asked.value)
  {
    RunKeepsInv(EMPTY_WORLD, es);
    var w := After(EMPTY_WORLD, es);
    forall d | d in w.log && d.tag.asked.Some? ensures d.uid == d.tag.asked.value {
      assert RightRecipient(d);
    }
  }

  // ----- how many, and which -----

  function Requests(es: seq<Event>): (n: nat)
  {
    if es == [] then 0 else (if es[0].Request? then 1 else 0) + Requests(es[1..])
  }

  /** Only a request adds a message, one at most; taking one off a channel delivers it once or drops it. */
  lemma StepAddsAtMostOne(w: World, e: Event)
    requires Enabled(w, e)
    ensures var r := Next(w, e);
            && w.log <= r.log
            && |r.log| + |r.bus| <= |w.log| + |w.bus| + if e.Request? then 1 else 0
  {
  }

  /** There are never more deliveries and packets together than there were requests. */
  lemma {:induction false} NoMoreThanRequests(w: World, es: seq<Event>)
    requires Run(w, es)
    ensures var r := After(w, es); |r.log| + |r.bus| <= |w.log| + |w.bus| + Requests(es)
    decreases |es|
  {
    if es == [] {
    } else {
      StepAddsAtMostOne(w, es[0]);
      NoMoreThanRequests(Next(w, es[0]), es[1..]);
    }
  }

  /** Without that hypothesis a route does dangle: a session logs in as "a", then as "b", and closes. */
  lemma SecondLoginDangles(a: Body, b: Body)
    requires a == Body(map["uid" := "a", "token" := "t"], None) && b == Body(map["uid" := "b", "token" := "u"], None)
    ensures var w1 := Next(EMPTY_WORLD, Accept("s", "h"));
            var w2 := Next(w1, Login("s", a, true));
            var w3 := Next(w2, Login("s", b, true));
            var w4 := Next(w3, Disconnect("s"));
            && NoDangling(w2) && LeavesRouteBehind(w2, Login("s", b, true))
            && "a" in w4.routes && w4.routes["a"].uuid !in w4.sessions
  {
    var w1 := Next(EMPTY_WORLD, Accept("s", "h"));
    var w2 := Next(w1, Login("s", a, true));
    assert w2.sessions["s"].uid == "a";
    var w3 := Next(w2, Login("s", b, true));
    assert w3.sessions["s"].uid == "b" && "a" in w3.routes;
  }

  function Field(fields: map<string, string>): (b: Body)
  {
    Body(fields, None)
  }

  /** Closing a session that has logged in takes the route of its uid with it, whichever session that route names, and
      closing one that has not takes none. */
  lemma CloseTakesRoute(w: World, uuid: string)
    requires uuid in w.sessions
    ensures var s, r := w.sessions[uuid], Next(w, Disconnect(uuid));
            && r.sessions == w.sessions - {uuid} && r.log == w.log && r.bus == w.bus
            && (forall uid :: uid in r.routes <==> uid in w.routes && !(s.isLogin && uid == s.uid))
            && (forall uid <- r.routes :: r.routes[uid] == w.routes[uid])
  {
  }

  /** A second login under the same uid does cut the first session off, and when the first one closes the second is cut
      off as well. */
  lemma SecondSessionSteals()
    ensures var login := Field(map["uid" := "a", "token" := "t"]);
            var w1 := Next(EMPTY_WORLD, Accept("s", "h"));
            var w2 := Next(w1, Login("s", login, true));
            var w3 := Next(w2, Accept("r", "h"));
            var w4 := Next(w3, Login("r", login, true));
            && AllRouted(w3) && !AllRouted(w4)
            && "s" in w4.sessions && w4.sessions["s"].isLogin && w4.routes == map["a" := Route("h", "r")]
            && var w5 := Next(w4, Disconnect("s"));
               "r" in w5.sessions && w5.sessions["r"].isLogin && "a" !in w5.routes
  {
    var login := Field(map["uid" := "a", "token" := "t"]);
    var w1 := Next(EMPTY_WORLD, Accept("s", "h"));
    var w2 := Next(w1, Login("s", login, true));
    assert w2.sessions == map["s" := Session("h", "a", "t", true, "")] && w2.routes == map["a" := Route("h", "s")];
    assert "r" != "s";
    var w3 := Next(w2, Accept("r", "h"));
    AllRoutedIff(w3, Login("r", login, true));
  }

  // ----- order -----

  /** The server a route names is the one its session belongs to. */
  ghost predicate RoutesRecorded(w: World)
  {
    forall uid <- w.routes :: w.routes[uid].uuid in w.hosts && w.hosts[w.routes[uid].uuid] == w.routes[uid].host
  }

  /** A packet goes from a session of one server to a session of another. */
  ghost predicate BetweenServers(w: World, p: Packet)
  {
    var uuid := AddressedTo(p.fields);
    && uuid in w.hosts && p.tag.from in w.hosts
    && w.hosts[uuid] == p.host != w.hosts[p.tag.from]
  }

  ghost predicate Numbered(w: World)
  {
    && (forall d <- w.log :: d.tag.number < w.next)
    && (forall p <- w.bus :: p.tag.number < w.next)
    && (forall i, j :: 0 <= i < j < |w.bus| ==> w.bus[i].tag.number < w.bus[j].tag.number)
  }

  /** What one session forwarded to one session was delivered in the order it was forwarded, and before what is still
      under way between them. */
  ghost predicate PairsInOrder(w: World)
  {
    && (forall i, j :: 0 <= i < j < |w.log| ==>
          w.log[i].tag.from == w.log[j].tag.from && w.log[i].uuid == w.log[j].uuid ==>
            w.log[i].tag.number < w.log[j].tag.number)
    && (forall d <- w.log, p <- w.bus :: d.tag.from == p.tag.from && d.uuid == AddressedTo(p.fields) ==>
          d.tag.number < p.tag.number)
  }

  ghost predicate Ordered(w: World)
  {
    && Known(w) && RoutesRecorded(w) && Numbered(w) && PairsInOrder(w)
    && forall p <- w.bus :: BetweenServers(w, p)
  }

  /** A new delivery later than all before between its two sessions keeps the order. */
  lemma DeliveredInOrder(w: World, d: Delivery)
    requires PairsInOrder(w)
    requires forall e <- w.log :: e.tag.from == d.tag.from && e.uuid == d.uuid ==> e.tag.number < d.tag.number
    requires forall p <- w.bus :: d.tag.from == p.tag.from && d.uuid == AddressedTo(p.fields) ==>
               d.tag.number < p.tag.number
    ensures PairsInOrder(w.(log := w.log + [d]))
  {
    var log := w.log + [d];
    forall i, j | 0 <= i < j < |log| && log[i].tag.from == log[j].tag.from && log[i].uuid == log[j].uuid
      ensures log[i].tag.number < log[j].tag.number
    {
      assert log[i] == w.log[i] && log[i] in w.log;
    }
  }

  lemma PublishedInOrder(w: World, p: Packet)
    requires PairsInOrder(w) && Numbered(w) && p.tag.number == w.next
    ensures PairsInOrder(w.(bus := w.bus + [p], next := w.next + 1))
    ensures Numbered(w.(bus := w.bus + [p], next := w.next + 1))
  {
    assert forall q <- w.bus + [p] :: q in w.bus || q == p;
  }

  lemma ForwardKeepsOrder(w: World, from: string, s: Session, id: int, body: Body, remark: Option<string>)
    requires Ordered(w) && from in w.sessions && w.sessions[from].host == s.host
    ensures Ordered(ForwardedWorld(w, from, s, id, body, remark))
  {
    var r := ForwardedWorld(w, from, s, id, body, remark);
    ForwardKeepsTables(w, from, s, id, body, remark);
    if s.forwardId in w.routes && r != w {
      var route := w.routes[s.forwardId];
      var item := Item(id, s.uid, s.forwardId, body, remark.UnwrapOr(""));
      var tag := TagOf(w.next, from, s, id, body);
      if route.host != s.host {
        var p := Packet(route.host, Published(Content(item), id, route.uuid), tag);
        PublishedIsRecovered(item, id, route.uuid);
        PublishedInOrder(w, p);
        assert BetweenServers(r, p);
        forall q | q in r.bus ensures BetweenServers(r, q) {
          assert q in w.bus ==> BetweenServers(w, q);
        }
      } else {
        var d := Delivery(route.uuid, w.sessions[route.uuid].uid, LocalOutgoing(item), tag);
        forall p | p in w.bus ensures !(d.tag.from == p.tag.from && d.uuid == AddressedTo(p.fields)) {
          assert BetweenServers(w, p);
        }
        DeliveredInOrder(w, d);
        assert forall e <- r.log :: e in w.log || e == d;
        assert forall p <- r.bus :: BetweenServers(w, p);
      }
    }
  }

  /** Taking the first packet of its channel leaves only later ones of that channel. */
  lemma TakenOffFirst(w: World, i: nat)
    requires Numbered(w) && Enabled(w, Deliver(i))
    ensures var bus := w.bus[..i] + w.bus[i + 1..];
            && (forall q <- bus :: q in w.bus)
            && (forall q <- bus :: q.host == w.bus[i].host ==> w.bus[i].tag.number < q.tag.number)
            && (forall j, k :: 0 <= j < k < |bus| ==> bus[j].tag.number < bus[k].tag.number)
  {
    var bus := w.bus[..i] + w.bus[i + 1..];
    assert forall j :: 0 <= j < i ==> bus[j] == w.bus[j];
    assert forall j :: i <= j < |bus| ==> bus[j] == w.bus[j + 1];
  }

  lemma DeliveryKeepsOrder(w: World, i: nat)
    requires Ordered(w) && Enabled(w, Deliver(i))
    ensures Ordered(AfterDelivery(w, i))
  {
    var p := w.bus[i];
    var uuid := AddressedTo(p.fields);
    var v := w.(bus := w.bus[..i] + w.bus[i + 1..]);
    TakenOffFirst(w, i);
    assert p in w.bus && BetweenServers(w, p);
    forall q | q in v.bus ensures BetweenServers(v, q) {
      assert BetweenServers(w, q);
    }
    if SessionAt(w, p.host, uuid) {
      var d := Delivery(uuid, w.sessions[uuid].uid, Received(p.fields), p.tag);
      forall q | q in v.bus && d.tag.from == q.tag.from && d.uuid == AddressedTo(q.fields)
        ensures d.tag.number < q.tag.number
      {
        assert BetweenServers(w, q) && q.host == p.host;
      }
      DeliveredInOrder(v, d);
    }
  }

  lemma RequestKeepsOrder(w: World, uuid: string, id: int, body: Body, dbOk: bool, remark: Option<string>)
    requires Ordered(w) && uuid in w.sessions && Forwarded(id)
    ensures Ordered(AfterRequest(w, uuid, id, body, dbOk, remark))
  {
    if !Fails(id, w.sessions[uuid], body) {
      var t := Handled(id, w.sessions[uuid], body, dbOk);
      var v := w.(sessions := w.sessions[uuid := t]);
      assert Known(v);
      SameOrder(w, v);
      ForwardKeepsOrder(v, uuid, t, id, body, remark);
    } else {
      SameOrder(w, Closed(w, uuid));
    }
  }

  lemma SameOrder(w: World, r: World)
    requires Ordered(w) && r.bus == w.bus && r.log == w.log && r.next == w.next
    requires Known(r) && RoutesRecorded(r)
    requires forall uuid <- w.hosts :: uuid in r.hosts && r.hosts[uuid] == w.hosts[uuid]
    ensures Ordered(r)
  {
    forall p | p in r.bus ensures BetweenServers(r, p) {
      assert BetweenServers(w, p);
    }
  }

  lemma NextKeepsOrder(w: World, e: Event)
    requires Ordered(w) && Enabled(w, e)
    ensures Ordered(Next(w, e))
  {
    match e
    case Accept(_, _) => SameOrder(w, Next(w, e));
    case Login(_, _, _) => SameOrder(w, Next(w, e));
    case Request(uuid, id, body, dbOk, remark) => RequestKeepsOrder(w, uuid, id, body, dbOk, remark);
    case Disconnect(_) => SameOrder(w, Next(w, e));
    case Deliver(i) => DeliveryKeepsOrder(w, i);
  }

  lemma {:induction false} RunKeepsOrder(w: World, es: seq<Event>)
    requires Ordered(w) && Run(w, es)
    ensures Ordered(After(w, es))
    decreases |es|
  {
    if es == [] {
    } else {
      NextKeepsOrder(w, es[0]);
      RunKeepsOrder(Next(w, es[0]), es[1..]);
    }
  }

  /** Over every run, second logins included: what one session forwards to one session is delivered in the order it was
      forwarded, since both stay on their servers and each channel is first in, first out. */
  lemma DeliveredInOrderPerPair(es: seq<Event>)
    requires Run(EMPTY_WORLD, es)
    ensures var log := After(EMPTY_WORLD, es).log;
            forall i, j :: 0 <= i < j < |log| && log[i].tag.from == log[j].tag.from && log[i].uuid == log[j].uuid ==>
              log[i].tag.number < log[j].tag.number
  {
    RunKeepsOrder(EMPTY_WORLD, es);
  }
}
