/** What a chat server sends on when a request concerns another user: the JSON it composes, directly for a recipient
    on the same server, or with addressing fields through the other server's channel. */
module Forwarding {
  import opened Seqs

  const REQUEST_ADD_FRIEND := 1007
  const GET_APPLY_FRIEND_LIST := 1008
  const WHETHER_ACCEPT_ADD_FRIEND := 1010
  const GET_FRIEND_LIST := 1011
  const SEND_MSG := 1012
  const GET_FRIEND_MSG := 1013

  const NOBODY: string := "-1"

  datatype Json = Null | Num(n: int) | Str(s: string) | Arr(items: seq<Json>) | Obj(fields: map<string, Json>)

  /** A parsed request body: its string fields and its one boolean field. */
  datatype Body = Body(fields: map<string, string>, isAccept: Option<bool>) {
    /** `json[key].asString()`: a missing field reads as the empty string. */
    function Text(key: string): (s: string) {
      if key in fields then fields[key] else ""
    }
  }

  datatype Outgoing = Outgoing(reqId: int, payload: Json)

  predicate Forwarded(id: int)
  {
    id == SEND_MSG || id == REQUEST_ADD_FRIEND || id == WHETHER_ACCEPT_ADD_FRIEND
  }

  /** The one item of the content array. */
  function Item(id: int, uid: string, toid: string, body: Body, remark: string): (j: Json)
  {
    if id == SEND_MSG then
      Obj(map["fromid" := Str(uid), "toid" := Str(toid),
              "text" := Str(body.Text("text")), "time" := Str(body.Text("time"))])
    else if id == REQUEST_ADD_FRIEND then
      Obj(map["fromid" := Str(uid), "applyInfo" := Str(body.Text("apply"))])
    else
      Obj(map["id" := Str(uid), "remark" := Str(remark)])
  }

  function Content(item: Json): (fields: map<string, Json>)
  {
    map["success" := Num(1), "content" := Arr([item])]
  }

  /** The id a recipient on another server is sent. */
  function RemoteReqId(id: int): (r: int)
  {
    if id == SEND_MSG then GET_FRIEND_MSG
    else if id == REQUEST_ADD_FRIEND then GET_APPLY_FRIEND_LIST
    else GET_FRIEND_LIST
  }

  /** The object published: the content with the fields the other server needs. */
  function Published(fields: map<string, Json>, id: int, uuid: string): (r: map<string, Json>)
  {
    fields["reqid" := Num(RemoteReqId(id))]["uuid" := Str(uuid)]
  }

  /** What the local branch hands to the recipient's sendData. */
  function LocalOutgoing(item: Json): (o: Outgoing)
  {
    Outgoing(GET_FRIEND_MSG, Obj(Content(item)))
  }

  /** What the subscriber loop makes of a published object: the addressing fields are read and removed. */
  function Received(fields: map<string, Json>): (o: Outgoing)
  {
    Outgoing(if "reqid" in fields && fields["reqid"].Num? then fields["reqid"].n else 0,
             Obj(fields - {"uuid", "reqid"}))
  }

  function AddressedTo(fields: map<string, Json>): (uuid: string)
  {
    if "uuid" in fields && fields["uuid"].Str? then fields["uuid"].s else ""
  }

  /** The other server recovers the content, the id and the session meant. */
  lemma PublishedIsRecovered(item: Json, id: int, uuid: string)
    ensures Received(Published(Content(item), id, uuid)) == Outgoing(RemoteReqId(id), Obj(Content(item)))
    ensures AddressedTo(Published(Content(item), id, uuid)) == uuid
  {
    var fields := Published(Content(item), id, uuid);
    assert fields["reqid"] == Num(RemoteReqId(id)) && fields["uuid"] == Str(uuid);
    assert fields - {"uuid", "reqid"} == Content(item);
  }

  /** Where the recipient is connected makes no difference to what it is sent exactly for chat messages; friend
      requests and acceptances reach a local recipient under the id of a chat message. */
  lemma TransparentIff(id: int, item: Json, uuid: string)
    requires Forwarded(id)
    ensures Received(Published(Content(item), id, uuid)) == LocalOutgoing(item) <==> id == SEND_MSG
  {
    PublishedIsRecovered(item, id, uuid);
  }
}
