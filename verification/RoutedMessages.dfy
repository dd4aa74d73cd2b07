/** What is forwarded, to whom and on whose behalf, told by the JSON objects themselves. */
module RoutedMessages {
  import opened Seqs
  import opened Forwarding
  import opened Routing

  /** What a session is sent: an id and an object whose content is the one item. */
  predicate Carries(out: Outgoing, reqId: int, item: map<string, Json>)
  {
    out == Outgoing(reqId, Obj(map["success" := Num(1), "content" := Arr([Obj(item)])]))
  }

  /** Whenever the packet is taken off its channel, the session meant is handed the item if it is still open on that
      server, and nobody is handed anything else. */
  ghost predicate HandedOn(p: Packet, uuid: string, reqId: int, item: map<string, Json>)
  {
    forall w: World, i: nat :: i < |w.bus| && w.bus[i] == p && Enabled(w, Deliver(i)) ==>
      var log := Next(w, Deliver(i)).log;
      if SessionAt(w, p.host, uuid)
      then |log| == |w.log| + 1 && log[..|w.log|] == w.log
           && log[|w.log|].uuid == uuid && Carries(log[|w.log|].out, reqId, item)
      else log == w.log
  }

  /** From `w` to `r` one item more goes from session `from` to the session of user `to`: at once if both are on one
      server, under the id of a chat message, else as a packet that is handed on under `reqId`. */
  ghost predicate Adds(w: World, r: World, from: string, to: string, asked: Option<string>,
                       reqId: int, item: map<string, Json>)
    requires from in w.sessions && to in w.routes
  {
    var route, tag := w.routes[to], Tag(w.next, from, to, asked);
    if route.host == w.sessions[from].host then
      && r.bus == w.bus && |r.log| == |w.log| + 1 && r.log[..|w.log|] == w.log
      && var d := r.log[|w.log|];
         d.uuid == route.uuid && d.uid == to && d.tag == tag && Carries(d.out, GET_FRIEND_MSG, item)
    else
      && r.log == w.log && |r.bus| == |w.bus| + 1 && r.bus[..|w.bus|] == w.bus
      && var p := r.bus[|w.bus|];
         p.host == route.host && p.tag == tag && HandedOn(p, route.uuid, reqId, item)
  }

  /** The item a forwarded request becomes; a missing field reads as the empty string. */
  predicate ItemOf(item: map<string, Json>, id: int, uid: string, to: string, body: Body, remark: string)
  {
    && (id == SEND_MSG ==>
          item == map["fromid" := Str(uid), "toid" := Str(to),
                      "text" := Str(if "text" in body.fields then body.fields["text"] else ""),
                      "time" := Str(if "time" in body.fields then body.fields["time"] else "")])
    && (id == REQUEST_ADD_FRIEND ==>
          item == map["fromid" := Str(uid),
                      "applyInfo" := Str(if "apply" in body.fields then body.fields["apply"] else "")])
    && (id == WHETHER_ACCEPT_ADD_FRIEND ==> item == map["id" := Str(uid), "remark" := Str(remark)])
  }

  lemma PacketHandedOn(p: Packet, item: map<string, Json>, id: int, uuid: string)
    requires p.fields == Published(Content(Obj(item)), id, uuid)
    ensures HandedOn(p, uuid, RemoteReqId(id), item)
  {
    PublishedIsRecovered(Obj(item), id, uuid);
  }

  lemma ForwardAdds(w: World, from: string, s: Session, id: int, body: Body, remark: Option<string>,
                    item: map<string, Json>)
    requires Inv(w) && from in w.sessions && s.host == w.sessions[from].host && s.forwardId in w.routes
    requires Forwarded(id) && (id == WHETHER_ACCEPT_ADD_FRIEND ==> remark.Some?)
    requires ItemOf(item, id, s.uid, s.forwardId, body, remark.UnwrapOr(""))
    ensures Adds(w, ForwardedWorld(w, from, s, id, body, remark), from, s.forwardId,
                 TagOf(w.next, from, s, id, body).asked, RemoteReqId(id), item)
  {
    var route := w.routes[s.forwardId];
    var r := ForwardedWorld(w, from, s, id, body, remark);
    assert Item(id, s.uid, s.forwardId, body, remark.UnwrapOr("")) == Obj(item);
    if route.host == s.host {
      assert SessionAt(w, route.host, route.uuid);
    } else {
      PacketHandedOn(r.bus[|w.bus|], item, id, route.uuid);
    }
  }

  // ----- what each request comes to -----

  /** The fields a handler insists on. */
  function Fields(id: int): (keys: set<string>)
  {
    if id == SEND_MSG then {"uid", "token", "toid", "text", "time"}
    else if id == REQUEST_ADD_FRIEND then {"uid", "token", "remark", "apply", "toid"}
    else {"uid", "token", "fromid", "remark"}
  }

  predicate AllThere(id: int, body: Body)
  {
    Fields(id) <= body.fields.Keys && (id == WHETHER_ACCEPT_ADD_FRIEND ==> body.isAccept.Some?)
  }

  /** All fields are there and the uid or the token is not the session's. */
  predicate Impostor(id: int, s: Session, body: Body)
  {
    AllThere(id, body) && (body.fields["uid"] != s.uid || body.fields["token"] != s.token)
  }

  /** Whom the request is for: nobody if the database refuses or a friend is declined; if fields are missing, whomever
      the request before was for. */
  function MeantFor(id: int, s: Session, body: Body, dbOk: bool): (to: string)
    requires Forwarded(id)
  {
    if !AllThere(id, body) then s.forwardId
    else if !dbOk then NOBODY
    else if id != WHETHER_ACCEPT_ADD_FRIEND then body.fields["toid"]
    else if body.isAccept.value then body.fields["fromid"]
    else NOBODY
  }

  lemma AllThereIsComplete(id: int, body: Body)
    requires Forwarded(id)
    ensures Complete(id, body) <==> AllThere(id, body)
  {
  }

  lemma HandledMeantFor(id: int, s: Session, body: Body, dbOk: bool)
    requires Forwarded(id)
    ensures Fails(id, s, body) <==> Impostor(id, s, body)
    ensures Handled(id, s, body, dbOk) == s.(forwardId := MeantFor(id, s, body, dbOk))
  {
    AllThereIsComplete(id, body);
  }

  /** Every request: it closes the session if and only if all fields are there under other credentials, else the
      session remembers whom it was for; and it sends nothing if and only if it closes the session, is for nobody, for a
      user without a route, or a friend acceptance without a remark on file. */
  lemma SilentIff(w: World, uuid: string, id: int, body: Body, dbOk: bool, remark: Option<string>)
    requires Inv(w) && uuid in w.sessions && Forwarded(id)
    ensures var s, r := w.sessions[uuid], Next(w, Request(uuid, id, body, dbOk, remark));
            var to := MeantFor(id, s, body, dbOk);
            && (uuid !in r.sessions <==> Impostor(id, s, body))
            && (uuid in r.sessions ==> r.sessions == w.sessions[uuid := s.(forwardId := to)] && r.routes == w.routes)
            && (r.log == w.log && r.bus == w.bus
                <==> Impostor(id, s, body) || to == NOBODY || to !in w.routes
                     || (id == WHETHER_ACCEPT_ADD_FRIEND && remark == None))
  {
    var s := w.sessions[uuid];
    HandledMeantFor(id, s, body, dbOk);
    if !Impostor(id, s, body) {
      var t := Handled(id, s, body, dbOk);
      var v := w.(sessions := w.sessions[uuid := t]);
      ForwardKeepsTables(v, uuid, t, id, body, remark);
      if t.forwardId in w.routes {
        assert SessionAt(w, w.routes[t.forwardId].host, w.routes[t.forwardId].uuid);
      }
    }
  }

  /** And what it sends otherwise is exactly one item, made of the session's uid and the request's own fields. */
  lemma RequestAdds(w: World, uuid: string, id: int, body: Body, dbOk: bool, remark: Option<string>,
                    item: map<string, Json>)
    requires Inv(w) && uuid in w.sessions && Forwarded(id)
    requires var s := w.sessions[uuid]; var to := MeantFor(id, s, body, dbOk);
             && !Impostor(id, s, body) && to != NOBODY && to in w.routes
             && (id == WHETHER_ACCEPT_ADD_FRIEND ==> remark.Some?)
             && ItemOf(item, id, s.uid, to, body, remark.UnwrapOr(""))
    ensures var to := MeantFor(id, w.sessions[uuid], body, dbOk);
            var asked := if id == SEND_MSG && AllThere(id, body) then Some(body.fields["toid"]) else None;
            Adds(w, Next(w, Request(uuid, id, body, dbOk, remark)), uuid, to, asked, RemoteReqId(id), item)
  {
    var s := w.sessions[uuid];
    HandledMeantFor(id, s, body, dbOk);
    AllThereIsComplete(id, body);
    var t := Handled(id, s, body, dbOk);
    var v := w.(sessions := w.sessions[uuid := t]);
    HandledKeepsInv(w, uuid, t);
    ForwardAdds(v, uuid, t, id, body, remark, item);
  }

  lemma HandledKeepsInv(w: World, uuid: string, t: Session)
    requires Inv(w) && uuid in w.sessions && t == w.sessions[uuid].(forwardId := t.forwardId)
    ensures Inv(w.(sessions := w.sessions[uuid := t]))
  {
    SameAddresses(w, w.(sessions := w.sessions[uuid := t]));
  }

  /** A complete, authentic SEND_MSG that the database accepted, to a user with a route: that user's session is handed
      the sender's uid, the addressee, and the text and time of the request, at once or from its channel. */
  lemma AcceptedMessageReaches(w: World, uuid: string, body: Body, remark: Option<string>)
    requires Inv(w) && uuid in w.sessions && {"uid", "token", "toid", "text", "time"} <= body.fields.Keys
    requires body.fields["uid"] == w.sessions[uuid].uid && body.fields["token"] == w.sessions[uuid].token
    requires body.fields["toid"] in w.routes && body.fields["toid"] != NOBODY
    ensures Adds(w, Next(w, Request(uuid, SEND_MSG, body, true, remark)), uuid, body.fields["toid"],
                 Some(body.fields["toid"]), GET_FRIEND_MSG,
                 map["fromid" := Str(w.sessions[uuid].uid), "toid" := Str(body.fields["toid"]),
                     "text" := Str(body.fields["text"]), "time" := Str(body.fields["time"])])
  {
    RequestAdds(w, uuid, SEND_MSG, body, true, remark,
                map["fromid" := Str(w.sessions[uuid].uid), "toid" := Str(body.fields["toid"]),
                    "text" := Str(body.fields["text"]), "time" := Str(body.fields["time"])]);
  }

  /** The same for a friend request: the applicant and what was written with it. */
  lemma AcceptedApplicationReaches(w: World, uuid: string, body: Body, remark: Option<string>)
    requires Inv(w) && uuid in w.sessions && {"uid", "token", "remark", "apply", "toid"} <= body.fields.Keys
    requires body.fields["uid"] == w.sessions[uuid].uid && body.fields["token"] == w.sessions[uuid].token
    requires body.fields["toid"] in w.routes && body.fields["toid"] != NOBODY
    ensures Adds(w, Next(w, Request(uuid, REQUEST_ADD_FRIEND, body, true, remark)), uuid, body.fields["toid"],
                 None, GET_APPLY_FRIEND_LIST,
                 map["fromid" := Str(w.sessions[uuid].uid), "applyInfo" := Str(body.fields["apply"])])
  {
    RequestAdds(w, uuid, REQUEST_ADD_FRIEND, body, true, remark,
                map["fromid" := Str(w.sessions[uuid].uid), "applyInfo" := Str(body.fields["apply"])]);
  }

  /** The same for an acceptance: the new friend and the remark on file. */
  lemma AcceptanceReaches(w: World, uuid: string, body: Body, remark: string)
    requires Inv(w) && uuid in w.sessions && {"uid", "token", "fromid", "remark"} <= body.fields.Keys
    requires body.fields["uid"] == w.sessions[uuid].uid && body.fields["token"] == w.sessions[uuid].token
    requires body.isAccept == Some(true) && body.fields["fromid"] in w.routes && body.fields["fromid"] != NOBODY
    ensures Adds(w, Next(w, Request(uuid, WHETHER_ACCEPT_ADD_FRIEND, body, true, Some(remark))), uuid,
                 body.fields["fromid"], None, GET_FRIEND_LIST,
                 map["id" := Str(w.sessions[uuid].uid), "remark" := Str(remark)])
  {
    RequestAdds(w, uuid, WHETHER_ACCEPT_ADD_FRIEND, body, true, Some(remark),
                map["id" := Str(w.sessions[uuid].uid), "remark" := Str(remark)]);
  }

  /** An incomplete SEND_MSG is dropped if and only if the session has no previous addressee or that one has no route.
      Otherwise it goes, with its missing fields empty, to whomever the session's last accepted request addressed. */
  lemma IncompleteDroppedIff(w: World, uuid: string, body: Body, dbOk: bool, remark: Option<string>)
    requires Inv(w) && uuid in w.sessions && !AllThere(SEND_MSG, body)
    ensures var to := w.sessions[uuid].forwardId;
            var r := Next(w, Request(uuid, SEND_MSG, body, dbOk, remark));
            (r.log == w.log && r.bus == w.bus) <==> (to == NOBODY || to !in w.routes)
    ensures var s := w.sessions[uuid];
            s.forwardId != NOBODY && s.forwardId in w.routes ==>
              Adds(w, Next(w, Request(uuid, SEND_MSG, body, dbOk, remark)), uuid, s.forwardId, None, GET_FRIEND_MSG,
                   map["fromid" := Str(s.uid), "toid" := Str(s.forwardId),
                       "text" := Str(if "text" in body.fields then body.fields["text"] else ""),
                       "time" := Str(if "time" in body.fields then body.fields["time"] else "")])
  {
    var s := w.sessions[uuid];
    SilentIff(w, uuid, SEND_MSG, body, dbOk, remark);
    if s.forwardId != NOBODY && s.forwardId in w.routes {
      RequestAdds(w, uuid, SEND_MSG, body, dbOk, remark,
                  map["fromid" := Str(s.uid), "toid" := Str(s.forwardId),
                      "text" := Str(if "text" in body.fields then body.fields["text"] else ""),
                      "time" := Str(if "time" in body.fields then body.fields["time"] else "")]);
    }
  }

  /** Session "s" is logged in as "a" and session "r" as "b", on one server. */
  function TwoLoggedIn(): (w: World)
    ensures w.sessions == map["s" := Session("h", "a", "t", true, ""), "r" := Session("h", "b", "u", true, "")]
    ensures w.routes == map["a" := Route("h", "s"), "b" := Route("h", "r")] && w.log == [] && w.bus == []
  {
    assert "r" != "s";
    var w1 := Next(EMPTY_WORLD, Accept("s", "h"));
    var w2 := Next(w1, Login("s", Field(map["uid" := "a", "token" := "t"]), true));
    var w3 := Next(w2, Accept("r", "h"));
    Next(w3, Login("r", Field(map["uid" := "b", "token" := "u"]), true))
  }

  /** It happens: "a" writes to "b", then sends an empty request, and "b" is handed a second, empty message. */
  lemma IncompleteReachesPrevious()
    ensures var message := Field(map["uid" := "a", "token" := "t", "toid" := "b", "text" := "x", "time" := "y"]);
            var w1 := AfterRequest(TwoLoggedIn(), "s", SEND_MSG, message, true, None);
            && |w1.log| == 1 && "s" in w1.sessions
            && var w2 := AfterRequest(w1, "s", SEND_MSG, Field(map[]), true, None);
               && |w2.log| == 2 && w2.log[1].uuid == "r" && w2.log[1].uid == "b"
               && Carries(w2.log[1].out, GET_FRIEND_MSG,
                          map["fromid" := Str("a"), "toid" := Str("b"), "text" := Str(""), "time" := Str("")])
  {
    var message := Field(map["uid" := "a", "token" := "t", "toid" := "b", "text" := "x", "time" := "y"]);
    assert Complete(SEND_MSG, message) && "b" != NOBODY && "r" != "s";
    var w1 := AfterRequest(TwoLoggedIn(), "s", SEND_MSG, message, true, None);
    assert w1.sessions["s"] == Session("h", "a", "t", true, "b") && w1.routes == TwoLoggedIn().routes;
    assert w1.sessions["r"] == Session("h", "b", "u", true, "");
  }

  // ----- where messages come from -----

  /** A login with both fields that the status server approved; any other closes the session. */
  predicate LogsIn(e: Event, uuid: string, uid: string)
  {
    e.Login? && e.uuid == uuid && e.approved && {"uid", "token"} <= e.body.fields.Keys && e.body.fields["uid"] == uid
  }

  lemma LoginOutcome(w: World, uuid: string, body: Body, approved: bool)
    requires uuid in w.sessions
    ensures var e := Login(uuid, body, approved); var r := Next(w, e);
            && r.log == w.log && r.bus == w.bus
            && (uuid in r.sessions <==> {"uid", "token"} <= body.fields.Keys && LogsIn(e, uuid, body.fields["uid"]))
            && (uuid in r.sessions ==>
                  var s := r.sessions[uuid];
                  && s.isLogin && s.uid == body.fields["uid"] && s.token == body.fields["token"]
                  && r.routes == w.routes[s.uid := Route(w.sessions[uuid].host, uuid)])
  {
  }

  ghost predicate LoggedInBefore(es: seq<Event>, n: nat, uuid: string, uid: string)
    requires n <= |es|
  {
    exists j :: 0 <= j < n && LogsIn(es[j], uuid, uid)
  }

  /** `out` is what the i-th event, a request of session `from`, becomes for `to`, under a uid that session had logged
      in with before, or the empty one of a session that has not logged in. */
  ghost predicate WrittenBy(es: seq<Event>, i: nat, from: string, to: string, out: Outgoing)
    requires i < |es|
  {
    var e := es[i];
    && e.Request? && e.uuid == from && Forwarded(e.id)
    && exists uid, item :: ItemOf(item, e.id, uid, to, e.body, e.remark.UnwrapOr("")) && Carries(out, out.reqId, item)
                           && (uid == "" || LoggedInBefore(es, i, from, uid))
  }

  ghost predicate Genuine(es: seq<Event>, from: string, to: string, out: Outgoing)
  {
    exists i: nat :: i < |es| && WrittenBy(es, i, from, to, out)
  }

  /** Uids come from logins, and what was or will be handed over from requests. */
  ghost predicate Authored(es: seq<Event>, w: World)
  {
    && (forall uuid <- w.sessions :: w.sessions[uuid].uid == "" || LoggedInBefore(es, |es|, uuid, w.sessions[uuid].uid))
    && (forall d <- w.log :: Genuine(es, d.tag.from, d.tag.to, d.out))
    && (forall p <- w.bus :: Genuine(es, p.tag.from, p.tag.to, Received(p.fields)))
  }

  lemma LoggedInGrows(es: seq<Event>, e: Event, n: nat, uuid: string, uid: string)
    requires n <= |es|
    ensures LoggedInBefore(es, n, uuid, uid) <==> LoggedInBefore(es + [e], n, uuid, uid)
  {
    if LoggedInBefore(es, n, uuid, uid) {
      var j :| 0 <= j < n && LogsIn(es[j], uuid, uid);
      assert (es + [e])[j] == es[j];
    }
  }

  lemma GenuineGrows(es: seq<Event>, e: Event, from: string, to: string, out: Outgoing)
    requires Genuine(es, from, to, out)
    ensures Genuine(es + [e], from, to, out)
  {
    var i: nat :| i < |es| && WrittenBy(es, i, from, to, out);
    var f := es[i];
    var uid, item :| ItemOf(item, f.id, uid, to, f.body, f.remark.UnwrapOr("")) && Carries(out, out.reqId, item)
                     && (uid == "" || LoggedInBefore(es, i, from, uid));
    LoggedInGrows(es, e, i, from, uid);
    assert (es + [e])[i] == f && WrittenBy(es + [e], i, from, to, out);
  }

  lemma AuthoredGrows(es: seq<Event>, e: Event, w: World)
    requires Authored(es, w)
    ensures Authored(es + [e], w)
  {
    forall uuid | uuid in w.sessions && w.sessions[uuid].uid != ""
      ensures LoggedInBefore(es + [e], |es + [e]|, uuid, w.sessions[uuid].uid)
    {
      var j :| 0 <= j < |es| && LogsIn(es[j], uuid, w.sessions[uuid].uid);
      assert (es + [e])[j] == es[j];
    }
    forall d | d in w.log ensures Genuine(es + [e], d.tag.from, d.tag.to, d.out) {
      GenuineGrows(es, e, d.tag.from, d.tag.to, d.out);
    }
    forall p | p in w.bus ensures Genuine(es + [e], p.tag.from, p.tag.to, Received(p.fields)) {
      GenuineGrows(es, e, p.tag.from, p.tag.to, Received(p.fields));
    }
  }

  /** The item of a forwarded request. */
  lemma ItemExists(id: int, uid: string, to: string, body: Body, remark: string) returns (item: map<string, Json>)
    requires Forwarded(id)
    ensures ItemOf(item, id, uid, to, body, remark) && Item(id, uid, to, body, remark) == Obj(item)
  {
    var j := Item(id, uid, to, body, remark);
    item := j.fields;
  }

  /** A request of `from`, whose uid is that of session `s`, is what it has sent. */
  lemma RequestIsAuthor(es: seq<Event>, w: World, e: Event, s: Session, out: Outgoing)
    requires e.Request? && Forwarded(e.id) && (s.uid == "" || LoggedInBefore(es, |es|, e.uuid, s.uid))
    requires out.payload == Obj(Content(Item(e.id, s.uid, s.forwardId, e.body, e.remark.UnwrapOr(""))))
    ensures Genuine(es + [e], e.uuid, s.forwardId, out)
  {
    var item := ItemExists(e.id, s.uid, s.forwardId, e.body, e.remark.UnwrapOr(""));
    assert Carries(out, out.reqId, item);
    LoggedInGrows(es, e, |es|, e.uuid, s.uid);
    assert (es + [e])[|es|] == e && WrittenBy(es + [e], |es|, e.uuid, s.forwardId, out);
  }

  lemma ForwardAuthored(es: seq<Event>, w: World, e: Event, s: Session)
    requires Authored(es + [e], w) && e.Request? && Forwarded(e.id)
    requires s.uid == "" || LoggedInBefore(es, |es|, e.uuid, s.uid)
    ensures Authored(es + [e], ForwardedWorld(w, e.uuid, s, e.id, e.body, e.remark))
  {
    var r := ForwardedWorld(w, e.uuid, s, e.id, e.body, e.remark);
    var item := Item(e.id, s.uid, s.forwardId, e.body, e.remark.UnwrapOr(""));
    ForwardKeepsTables(w, e.uuid, s, e.id, e.body, e.remark);
    if |r.log| > |w.log| {
      RequestIsAuthor(es, w, e, s, r.log[|w.log|].out);
    } else if |r.bus| > |w.bus| {
      PublishedIsRecovered(item, e.id, w.routes[s.forwardId].uuid);
      RequestIsAuthor(es, w, e, s, Received(r.bus[|w.bus|].fields));
    }
  }

  lemma RequestAuthored(es: seq<Event>, w: World, e: Event)
    requires Authored(es, w) && Enabled(w, e) && e.Request?
    ensures Authored(es + [e], Next(w, e))
  {
    AuthoredGrows(es, e, w);
    var s := w.sessions[e.uuid];
    if !Fails(e.id, s, e.body) {
      var t := Handled(e.id, s, e.body, e.dbOk);
      var v := w.(sessions := w.sessions[e.uuid := t]);
      assert Authored(es + [e], v);
      ForwardAuthored(es, v, e, t);
    }
  }

  lemma DeliverAuthored(es: seq<Event>, w: World, e: Event)
    requires Authored(es, w) && Enabled(w, e) && e.Deliver?
    ensures Authored(es + [e], Next(w, e))
  {
    AuthoredGrows(es, e, w);
    var p, r := w.bus[e.i], Next(w, e);
    assert forall q <- r.bus :: q in w.bus;
    assert forall d <- r.log :: d in w.log || (d.tag == p.tag && d.out == Received(p.fields));
  }

  lemma NextAuthored(es: seq<Event>, w: World, e: Event)
    requires Authored(es, w) && Enabled(w, e)
    ensures Authored(es + [e], Next(w, e))
  {
    AuthoredGrows(es, e, w);
    match e
    case Accept(_, _) =>
    case Login(uuid, body, approved) =>
      assert (es + [e])[|es|] == e;
      if LoginSucceeds(body, approved) {
        assert LogsIn((es + [e])[|es|], uuid, body.fields["uid"]);
      }
    case Request(_, _, _, _, _) => RequestAuthored(es, w, e);
    case Disconnect(_) =>
    case Deliver(_) => DeliverAuthored(es, w, e);
  }

  lemma {:induction false} RunAuthored(before: seq<Event>, w: World, es: seq<Event>)
    requires Authored(before, w) && Run(w, es)
    ensures Authored(before + es, After(w, es))
    decreases |es|
  {
    if es == [] {
      assert before + es == before;
    } else {
      NextAuthored(before, w, es[0]);
      RunAuthored(before + [es[0]], Next(w, es[0]), es[1..]);
      HeadTail(es);
      Assoc(before, [es[0]], es[1..]);
    }
  }

  /** In every reachable state every message handed over is the item of some request of the very session it is said to
      come from, with that request's text, time, application or remark, under a uid that this session had logged in
      with by then, or the empty one. */
  lemma NothingForged(es: seq<Event>)
    requires Run(EMPTY_WORLD, es)
    ensures forall d <- After(EMPTY_WORLD, es).log :: Genuine(es, d.tag.from, d.tag.to, d.out)
  {
    RunAuthored([], EMPTY_WORLD, es);
    assert [] + es == es;
  }
}
