/** The client's messages, kept per conversation by `Global`, and the conversation `ChatContentMsg` shows of them. */
module ClientMessages {
  import opened Seqs
  import opened ScrollWidgets

  const NO_ONE: string := "-1"

  /** A stored message; `opposite` is the other party, whose conversation it belongs to. */
  datatype Msg = Msg(id: nat, text: string, time: string, opposite: string, owner: Owner)

  /** One element of a GET_FRIEND_MSG reply. */
  datatype Incoming = Incoming(fromid: string, toid: string, text: string, time: string)

  type Store = map<string, seq<Msg>>

  function Stored(store: Store, who: string): (msgs: seq<Msg>)
  {
    if who in store then store[who] else []
  }

  // ----- QString::number -----

  function Decimal(n: nat): (s: string)
    ensures s != [] && forall i :: 0 <= i < |s| ==> '0' <= s[i] <= '9'
  {
    var last := [('0' as int + n % 10) as char];
    if n < 10 then last else Decimal(n / 10) + last
  }

  function Value(s: string): (n: int)
  {
    if s == [] then 0 else Value(s[..|s| - 1]) * 10 + (s[|s| - 1] as int - '0' as int)
  }

  lemma {:induction false} DecimalValue(n: nat)
    ensures Value(Decimal(n)) == n
  {
    var s := Decimal(n);
    if n < 10 {
      assert s[..|s| - 1] == [];
    } else {
      DecimalValue(n / 10);
      assert s[..|s| - 1] == Decimal(n / 10);
    }
  }

  /** Different message ids give different widget ids. */
  lemma DecimalInjective(m: nat, n: nat)
    ensures Decimal(m) == Decimal(n) ==> m == n
  {
    DecimalValue(m);
    DecimalValue(n);
  }

  function BubbleOf(m: Msg): (b: Bubble)
  {
    Bubble(Decimal(m.id), m.owner, m.text, m.time)
  }

  function BubblesOf(msgs: seq<Msg>): (bs: seq<Bubble>)
    ensures |bs| == |msgs| && forall i :: 0 <= i < |msgs| ==> bs[i] == BubbleOf(msgs[i])
  {
    if msgs == [] then [] else [BubbleOf(msgs[0])] + BubblesOf(msgs[1..])
  }

  // ----- specification -----

  /** The store, the id counter, the conversation selected and the bubbles on display. */
  datatype Chat = Chat(store: Store, msgId: nat, current: string, shown: seq<Bubble>)

  /** The content widget when it is made: nobody selected, nothing on display. */
  function NewChat(store: Store, msgId: nat): (c: Chat)
  {
    Chat(store, msgId, NO_ONE, [])
  }

  function RemoveAll(shown: seq<Bubble>, msgs: seq<Msg>): (r: seq<Bubble>)
    decreases |msgs|
  {
    if msgs == [] then shown else RemoveAll(Without(shown, BubbleOf(msgs[0]).key), msgs[1..])
  }

  function AppendMissing(shown: seq<Bubble>, msgs: seq<Msg>): (r: seq<Bubble>)
    decreases |msgs|
  {
    if msgs == [] then shown
    else AppendMissing(if HasKey(shown, BubbleOf(msgs[0]).key) then shown else shown + [BubbleOf(msgs[0])], msgs[1..])
  }

  /** flushMsgInterface: what was shown for another conversation goes, what is stored for the current one and not yet
      shown comes. */
  function Flushed(c: Chat, oldId: string): (shown: seq<Bubble>)
  {
    AppendMissing(if oldId != c.current && oldId != NO_ONE then RemoveAll(c.shown, Stored(c.store, oldId)) else c.shown,
                  Stored(c.store, c.current))
  }

  datatype Event =
    | Arrive(opposite: string, owner: Owner, text: string, time: string)
    | Send(text: string, time: string)       // the text as trimmed
    | Switch(to: Option<string>)             // None: the object clicked is neither kind of item

  function WithMsg(c: Chat, opposite: string, owner: Owner, text: string, time: string): (r: Chat)
  {
    var v := c.(store := c.store[opposite := Stored(c.store, opposite) + [Msg(c.msgId, text, time, opposite, owner)]],
                msgId := c.msgId + 1);
    if opposite == c.current then v.(shown := Flushed(v, c.current)) else v
  }

  function Next(c: Chat, e: Event): (r: Chat)
  {
    match e
    case Arrive(opposite, owner, text, time) => WithMsg(c, opposite, owner, text, time)
    case Send(text, time) =>
      if text == "" || c.current == NO_ONE then c
      else WithMsg(c.(shown := Flushed(c, c.current)), c.current, MYSELF, text, time)
    case Switch(to) =>
      var v := c.(current := to.UnwrapOr(c.current));
      v.(shown := Flushed(v, c.current))
  }

  function ArrivalOf(m: Incoming, me: string): (e: Event)
  {
    if m.fromid == me then Arrive(m.toid, MYSELF, m.text, m.time) else Arrive(m.fromid, OTHERS, m.text, m.time)
  }

  function Arrivals(items: seq<Incoming>, me: string): (es: seq<Event>)
    ensures |es| == |items| && forall i :: 0 <= i < |items| ==> es[i] == ArrivalOf(items[i], me)
  {
    seq(|items|, i requires 0 <= i < |items| => ArrivalOf(items[i], me))
  }

  function AfterAll(c: Chat, es: seq<Event>): (r: Chat)
    decreases |es|
  {
    if es == [] then c else AfterAll(Next(c, es[0]), es[1..])
  }

  // ----- the classes -----

  class Global {
    var msgId: nat
    var messages: Store

    constructor ()
      ensures msgId == 0 && messages == map[]
    {
      msgId, messages := 0, map[];
    }

    /** Stores the message under its other party with the next id. */
    method StoreMsg(msg: Msg) returns (stored: Msg)
      modifies this
      ensures stored == msg.(id := old(msgId)) && msgId == old(msgId) + 1
      ensures messages == old(messages)[msg.opposite := Stored(old(messages), msg.opposite) + [stored]]
    {
      stored := msg.(id := msgId);
      msgId := msgId + 1;
      if stored.opposite in messages {
        messages := messages[stored.opposite := messages[stored.opposite] + [stored]];
      } else {
        messages := messages[stored.opposite := [stored]];
        assert [] + [stored] == [stored];
      }
    }

    /** Stores the message and signals it, as stored, to the content widget, whose slot runs before the next statement;
        the list of conversations also listens, which changes nothing here. */
    method AppendMsg(msg: Msg, receiver: ChatContentMsg)
      requires receiver.global == this && receiver.Valid()
      modifies this, receiver.scrollWid
      ensures receiver.Valid()
      ensures messages == old(messages)[msg.opposite := Stored(old(messages), msg.opposite) + [msg.(id := old(msgId))]]
      ensures receiver.View() == WithMsg(old(receiver.View()), msg.opposite, msg.owner, msg.text, msg.time)
    {
      var stored := StoreMsg(msg);
      receiver.OnMessageCome(stored);
    }

    method OnFriendMsgCome(items: seq<Incoming>, me: string, receiver: ChatContentMsg)
      requires receiver.global == this && receiver.Valid()
      modifies this, receiver.scrollWid
      ensures receiver.Valid()
      ensures receiver.View() == AfterAll(old(receiver.View()), Arrivals(items, me))
      ensures forall who ::
                Grows(Stored(old(messages), who), Stored(messages, who), Concerning(items, me, who), me, who,
                      old(msgId))
    {
      ghost var before := receiver.View();
      ghost var events := Arrivals(items, me);
      for i := 0 to |items|
        invariant receiver.Valid()
        invariant AfterAll(before, events) == AfterAll(receiver.View(), events[i..])
      {
        var m := items[i];
        var owner := if m.fromid == me then MYSELF else OTHERS;
        var opposite := if m.fromid == me then m.toid else m.fromid;
        assert events[i..][0] == ArrivalOf(m, me) && events[i..][1..] == events[i + 1..];
        AppendMsg(Msg(0, m.text, m.time, opposite, owner), receiver);
      }
      forall who
        ensures Grows(Stored(before.store, who), Stored(messages, who), Concerning(items, me, who), me, who,
                      before.msgId)
      {
        ArrivalsStored(before, items, me, who);
      }
    }
  }

  class ChatContentMsg {
    const global: Global
    const scrollWid: CustomerScrollWidget
    var id: string

    ghost predicate Valid()
      reads this, scrollWid
    {
      scrollWid.Valid()
    }

    ghost function View(): (c: Chat)
      reads this, global, scrollWid
    {
      Chat(global.messages, global.msgId, id, scrollWid.Bubbles())
    }

    constructor (global: Global)
      ensures Valid() && View() == NewChat(global.messages, global.msgId)
      ensures this.global == global && fresh(scrollWid)
    {
      this.global := global;
      scrollWid := new CustomerScrollWidget();
      id := NO_ONE;
    }

    method OnMessageCome(msg: Msg)
      requires Valid()
      modifies scrollWid
      ensures Valid()
      ensures View() == if msg.opposite == id then old(View()).(shown := Flushed(old(View()), id)) else old(View())
    {
      if msg.opposite == id {
        FlushMsgInterface(id);
      }
    }

    method SendMsg(text: string, time: string)
      requires Valid()
      modifies global, scrollWid
      ensures Valid() && View() == Next(old(View()), Send(text, time))
    {
      if text == "" || id == NO_ONE {
        return;
      }
      FlushMsgInterface(id);
      global.AppendMsg(Msg(0, text, time, id, MYSELF), this);
    }

    method SwitchUser(to: Option<string>)
      requires Valid()
      modifies this`id, scrollWid
      ensures Valid() && View() == Next(old(View()), Switch(to))
    {
      var oldId := id;
      if to.Some? {
        id := to.value;
      }
      FlushMsgInterface(oldId);
    }

    method FlushMsgInterface(oldId: string)
      requires Valid()
      modifies scrollWid
      ensures Valid() && View() == old(View()).(shown := Flushed(old(View()), oldId))
    {
      if oldId != id && oldId != NO_ONE {
        RemoveShown(if oldId in global.messages then global.messages[oldId] else []);
      }
      AppendShown(if id in global.messages then global.messages[id] else []);
    }

    method RemoveShown(msgs: seq<Msg>)
      requires Valid()
      modifies scrollWid
      ensures Valid() && scrollWid.Bubbles() == RemoveAll(old(scrollWid.Bubbles()), msgs)
    {
      ghost var before := scrollWid.Bubbles();
      for i := 0 to |msgs|
        invariant Valid()
        invariant RemoveAll(before, msgs) == RemoveAll(scrollWid.Bubbles(), msgs[i..])
      {
        assert msgs[i..][0] == msgs[i] && msgs[i..][1..] == msgs[i + 1..];
        scrollWid.RemoveWidget(Decimal(msgs[i].id));
      }
    }

    method AppendShown(msgs: seq<Msg>)
      requires Valid()
      modifies scrollWid
      ensures Valid() && scrollWid.Bubbles() == AppendMissing(old(scrollWid.Bubbles()), msgs)
    {
      ghost var before := scrollWid.Bubbles();
      for i := 0 to |msgs|
        invariant Valid()
        invariant AppendMissing(before, msgs) == AppendMissing(scrollWid.Bubbles(), msgs[i..])
      {
        assert msgs[i..][0] == msgs[i] && msgs[i..][1..] == msgs[i + 1..];
        if scrollWid.ContainId(Decimal(msgs[i].id)) {
          continue;
        }
        scrollWid.AppendWidget(Decimal(msgs[i].id), BubbleOf(msgs[i]));
      }
    }
  }

  // ----- display equals store -----

  ghost predicate Belong(msgs: seq<Msg>, who: string, msgId: nat)
  {
    forall i :: 0 <= i < |msgs| ==> msgs[i].id < msgId && msgs[i].opposite == who
  }

  ghost predicate Apart(msgs: seq<Msg>, others: seq<Msg>)
  {
    forall i, j :: 0 <= i < |msgs| && 0 <= j < |others| ==> msgs[i].id != others[j].id
  }

  ghost predicate DistinctIds(msgs: seq<Msg>)
  {
    forall i, j :: 0 <= i < j < |msgs| ==> msgs[i].id != msgs[j].id
  }

  /** Ids are unique over all conversations, and below the counter. */
  ghost predicate UniqueIds(store: Store, msgId: nat)
  {
    && (forall who <- store :: Belong(store[who], who, msgId) && DistinctIds(store[who]))
    && (forall who <- store, other <- store :: who != other ==> Apart(store[who], store[other]))
  }

  /** Bubble by bubble the messages: same text, time and owner, under the message's id. */
  ghost predicate Shows(shown: seq<Bubble>, msgs: seq<Msg>)
  {
    && |shown| == |msgs|
    && forall j :: 0 <= j < |msgs| ==>
         && shown[j].text == msgs[j].text && shown[j].time == msgs[j].time && shown[j].owner == msgs[j].owner
         && shown[j].key == Decimal(msgs[j].id)
  }

  ghost predicate Faithful(c: Chat)
  {
    c.shown == BubblesOf(Stored(c.store, c.current))
  }

  lemma BubblesOfConcat(a: seq<Msg>, b: seq<Msg>)
    ensures BubblesOf(a + b) == BubblesOf(a) + BubblesOf(b)
  {
  }

  /** Removing a conversation's bubbles leaves those in front of it. */
  lemma {:induction false} RemoveAllShown(left: seq<Msg>, msgs: seq<Msg>)
    requires DistinctIds(msgs) && Apart(left, msgs)
    ensures RemoveAll(BubblesOf(left + msgs), msgs) == BubblesOf(left)
    decreases |msgs|
  {
    if msgs == [] {
      assert left + msgs == left;
    } else {
      RemoveFirstShown(left, msgs);
      RemoveAllShown(left, msgs[1..]);
    }
  }

  lemma RemoveFirstShown(left: seq<Msg>, msgs: seq<Msg>)
    requires Apart(left, msgs) && msgs != []
    ensures Without(BubblesOf(left + msgs), BubbleOf(msgs[0]).key) == BubblesOf(left + msgs[1..])
  {
    var b := BubbleOf(msgs[0]);
    BubblesOfConcat(left, msgs);
    BubblesOfConcat(left, msgs[1..]);
    forall i | 0 <= i < |left| ensures BubblesOf(left)[i].key != b.key {
      DecimalInjective(left[i].id, msgs[0].id);
    }
    WithoutAfter(BubblesOf(left), b, BubblesOf(msgs[1..]), b.key);
  }

  /** Messages already on display are not shown again, further ones follow in order. */
  lemma {:induction false} AppendMissingCompletes(shown: seq<Bubble>, done: seq<Msg>, msgs: seq<Msg>)
    requires DistinctIds(done + msgs) && shown == BubblesOf(done)
    ensures AppendMissing(shown, msgs) == BubblesOf(done + msgs)
    decreases |msgs|
  {
    if msgs == [] {
      assert done + msgs == done;
    } else {
      var m := msgs[0];
      assert !HasKey(shown, BubbleOf(m).key) by {
        forall i | 0 <= i < |done| ensures shown[i].key != BubbleOf(m).key {
          assert (done + msgs)[i].id != (done + msgs)[|done|].id;
          DecimalInjective(done[i].id, m.id);
        }
      }
      assert done + [m] + msgs[1..] == done + msgs;
      assert shown + [BubbleOf(m)] == BubblesOf(done + [m]);
      AppendMissingCompletes(shown + [BubbleOf(m)], done + [m], msgs[1..]);
    }
  }

  lemma {:induction false} AppendMissingKeeps(shown: seq<Bubble>, done: seq<Msg>, msgs: seq<Msg>)
    requires forall m <- done :: HasKey(shown, BubbleOf(m).key)
    ensures AppendMissing(shown, done + msgs) == AppendMissing(shown, msgs)
    decreases |done|
  {
    if done == [] {
      assert done + msgs == msgs;
    } else {
      assert done[0] in done;
      assert (done + msgs)[1..] == done[1..] + msgs;
      AppendMissingKeeps(shown, done[1..], msgs);
    }
  }

  /** A flush adds the messages not yet on display; `left` is what else is on display. */
  lemma FlushExtends(shown: seq<Bubble>, left: seq<Msg>, done: seq<Msg>, msgs: seq<Msg>)
    requires DistinctIds(left + done + msgs) && shown == BubblesOf(left + done)
    ensures AppendMissing(shown, done + msgs) == BubblesOf(left + done + msgs)
  {
    forall m | m in done ensures HasKey(shown, BubbleOf(m).key) {
      var i :| 0 <= i < |done| && done[i] == m;
      assert (left + done)[|left| + i] == m;
      assert shown[|left| + i] in shown;
    }
    AppendMissingKeeps(shown, done, msgs);
    AppendMissingCompletes(shown, left + done, msgs);
  }

  lemma StoredDistinct(store: Store, msgId: nat, who: string)
    requires UniqueIds(store, msgId)
    ensures DistinctIds(Stored(store, who))
  {
  }

  lemma StoredApart(store: Store, msgId: nat, who: string, other: string)
    requires UniqueIds(store, msgId)
    ensures who != other ==> Apart(Stored(store, who), Stored(store, other))
  {
  }

  lemma NewIdIsUnique(msgs: seq<Msg>, m: Msg, who: string, msgId: nat)
    requires Belong(msgs, who, msgId) && DistinctIds(msgs) && m.id == msgId && m.opposite == who
    ensures Belong(msgs + [m], who, msgId + 1) && DistinctIds(msgs + [m])
  {
  }

  lemma NewIdIsApart(msgs: seq<Msg>, m: Msg, others: seq<Msg>, other: string, msgId: nat)
    requires Belong(others, other, msgId) && Apart(msgs, others) && m.id == msgId
    ensures Apart(msgs + [m], others) && Apart(others, msgs + [m])
  {
  }

  lemma WithMsgUnique(c: Chat, opposite: string, owner: Owner, text: string, time: string)
    requires UniqueIds(c.store, c.msgId)
    ensures var r := WithMsg(c, opposite, owner, text, time); UniqueIds(r.store, r.msgId)
  {
    var r := WithMsg(c, opposite, owner, text, time);
    var m := Msg(c.msgId, text, time, opposite, owner);
    var msgs := Stored(c.store, opposite);
    NewIdIsUnique(msgs, m, opposite, c.msgId);
    forall who | who in r.store ensures Belong(r.store[who], who, r.msgId) && DistinctIds(r.store[who]) {
      assert who != opposite ==> Belong(c.store[who], who, c.msgId);
    }
    forall other | other in r.store && other != opposite
      ensures Apart(r.store[opposite], r.store[other]) && Apart(r.store[other], r.store[opposite])
    {
      NewIdIsApart(msgs, m, c.store[other], other, c.msgId);
    }
  }

  /** The messages of "-1" that stay on display with another conversation: the first `left` ones. */
  function Leftover(c: Chat, left: nat): (msgs: seq<Msg>)
    requires left <= |Stored(c.store, NO_ONE)|
  {
    if c.current == NO_ONE then [] else Stored(c.store, NO_ONE)[..left]
  }

  /** On display are the leftovers of "-1" and then the conversation selected, in order. */
  ghost predicate Displays(c: Chat, left: nat)
  {
    && left <= |Stored(c.store, NO_ONE)|
    && c.shown == BubblesOf(Leftover(c, left) + Stored(c.store, c.current))
  }

  lemma DisplayedDistinct(c: Chat, left: nat)
    requires UniqueIds(c.store, c.msgId) && left <= |Stored(c.store, NO_ONE)|
    ensures DistinctIds(Leftover(c, left) + Stored(c.store, c.current))
  {
    StoredDistinct(c.store, c.msgId, NO_ONE);
    StoredDistinct(c.store, c.msgId, c.current);
    StoredApart(c.store, c.msgId, NO_ONE, c.current);
  }

  lemma FaithfulWithout(c: Chat, left: nat)
    requires Displays(c, left)
    ensures Faithful(c) <==> Leftover(c, left) == []
  {
    var msgs := Stored(c.store, c.current);
    assert |BubblesOf(Leftover(c, left) + msgs)| == |Leftover(c, left)| + |msgs|;
    if Leftover(c, left) == [] {
      assert Leftover(c, left) + msgs == msgs;
    }
  }

  lemma FlushIsNoop(c: Chat, left: nat)
    requires UniqueIds(c.store, c.msgId) && Displays(c, left)
    ensures Flushed(c, c.current) == c.shown
  {
    var left, msgs := Leftover(c, left), Stored(c.store, c.current);
    DisplayedDistinct(c, |left|);
    assert msgs + [] == msgs && left + msgs + [] == left + msgs;
    FlushExtends(c.shown, left, msgs, []);
  }

  lemma WithMsgDisplays(c: Chat, left: nat, opposite: string, owner: Owner, text: string, time: string)
    requires UniqueIds(c.store, c.msgId) && Displays(c, left)
    ensures Displays(WithMsg(c, opposite, owner, text, time), left)
  {
    var r := WithMsg(c, opposite, owner, text, time);
    WithMsgUnique(c, opposite, owner, text, time);
    assert Leftover(r, left) == Leftover(c, left);
    if opposite == c.current {
      var m := Msg(c.msgId, text, time, opposite, owner);
      DisplayedDistinct(r, left);
      Assoc(Leftover(c, left), Stored(c.store, opposite), [m]);
      FlushExtends(c.shown, Leftover(c, left), Stored(c.store, opposite), [m]);
    }
  }

  /** How many messages of "-1" are left over after an event: those stored when it was last left. */
  function Left(c: Chat, left: nat, e: Event): (n: nat)
  {
    if e.Switch? && c.current == NO_ONE && e.to.UnwrapOr(NO_ONE) != NO_ONE then |Stored(c.store, NO_ONE)| else left
  }

  lemma LeavingNoOneDisplays(c: Chat, left: nat, to: string)
    requires UniqueIds(c.store, c.msgId) && Displays(c, left) && c.current == NO_ONE && to != NO_ONE
    ensures Displays(Next(c, Switch(Some(to))), |Stored(c.store, NO_ONE)|)
  {
    var none := Stored(c.store, NO_ONE);
    DisplayedDistinct(c.(current := to), |none|);
    assert none[..|none|] == none && [] + none == none;
    AppendMissingCompletes(c.shown, none, Stored(c.store, to));
  }

  lemma LeftoversRemain(c: Chat, left: nat)
    requires UniqueIds(c.store, c.msgId) && Displays(c, left) && c.current != NO_ONE
    ensures RemoveAll(c.shown, Stored(c.store, c.current)) == BubblesOf(Leftover(c, left))
  {
    StoredDistinct(c.store, c.msgId, c.current);
    StoredApart(c.store, c.msgId, NO_ONE, c.current);
    RemoveAllShown(Leftover(c, left), Stored(c.store, c.current));
  }

  /** Back at "-1" its leftovers are part of what it shows. */
  lemma LeftoversCompleted(c: Chat, left: nat)
    requires UniqueIds(c.store, c.msgId) && left <= |Stored(c.store, NO_ONE)|
    ensures var none := Stored(c.store, NO_ONE);
            AppendMissing(BubblesOf(none[..left]), none) == BubblesOf(none)
  {
    var none := Stored(c.store, NO_ONE);
    StoredDistinct(c.store, c.msgId, NO_ONE);
    Split(none, left);
    assert [] + none[..left] == none[..left];
    FlushExtends(BubblesOf(none[..left]), [], none[..left], none[left..]);
  }

  lemma LeavingOtherDisplays(c: Chat, left: nat, to: string)
    requires UniqueIds(c.store, c.msgId) && Displays(c, left) && c.current != NO_ONE && to != c.current
    ensures Displays(Next(c, Switch(Some(to))), left)
  {
    LeftoversRemain(c, left);
    if to == NO_ONE {
      LeftoversCompleted(c, left);
      assert [] + Stored(c.store, NO_ONE) == Stored(c.store, NO_ONE);
    } else {
      DisplayedDistinct(c.(current := to), left);
      AppendMissingCompletes(BubblesOf(Leftover(c, left)), Leftover(c, left), Stored(c.store, to));
    }
  }

  lemma NextDisplays(c: Chat, left: nat, e: Event)
    requires UniqueIds(c.store, c.msgId) && Displays(c, left)
    ensures UniqueIds(Next(c, e).store, Next(c, e).msgId) && Displays(Next(c, e), Left(c, left, e))
  {
    match e
    case Arrive(opposite, owner, text, time) =>
      WithMsgUnique(c, opposite, owner, text, time);
      WithMsgDisplays(c, left, opposite, owner, text, time);
    case Send(text, time) =>
      FlushIsNoop(c, left);
      WithMsgUnique(c, c.current, MYSELF, text, time);
      WithMsgDisplays(c, left, c.current, MYSELF, text, time);
    case Switch(to) =>
      if to.UnwrapOr(c.current) == c.current {
        FlushIsNoop(c, left);
      } else if c.current == NO_ONE {
        LeavingNoOneDisplays(c, left, to.value);
      } else {
        LeavingOtherDisplays(c, left, to.value);
      }
  }

  /** Leaving the conversation "-1" while messages are stored under it. */
  predicate LeavesLeftovers(c: Chat, e: Event)
  {
    e.Switch? && c.current == NO_ONE && e.to.Some? && e.to.value != NO_ONE && Stored(c.store, NO_ONE) != []
  }

  /** Any event keeps ids unique, and keeps the display equal to the stored conversation, exactly unless it leaves a
      non-empty conversation "-1", whose bubbles then stay. */
  lemma FaithfulIff(c: Chat, e: Event)
    requires UniqueIds(c.store, c.msgId) && Faithful(c)
    ensures UniqueIds(Next(c, e).store, Next(c, e).msgId)
    ensures Faithful(Next(c, e)) <==> !LeavesLeftovers(c, e)
  {
    assert Leftover(c, 0) + Stored(c.store, c.current) == Stored(c.store, c.current);
    NextDisplays(c, 0, e);
    FaithfulWithout(Next(c, e), Left(c, 0, e));
  }

  /** A message stored under "-1" while nobody is selected stays on display with the conversation selected next. */
  lemma LeftoversStay()
    ensures var c := AfterAll(NewChat(map[], 0), [Arrive(NO_ONE, OTHERS, "x", "t"), Switch(Some("a"))]);
            !Faithful(c) && c.current == "a" && Stored(c.store, "a") == [] && |c.shown| == 1
  {
    var es := [Arrive(NO_ONE, OTHERS, "x", "t"), Switch(Some("a"))];
    var start := NewChat(map[], 0);
    var c := Next(start, es[0]);
    FaithfulIff(start, es[0]);
    FaithfulIff(c, es[1]);
    var m := Msg(0, "x", "t", NO_ONE, OTHERS);
    assert Stored(start.store, NO_ONE) + [m] == [m] && Stored(c.store, NO_ONE) == [m];
    assert "a" != NO_ONE && Stored(c.store, "a") == [];
    assert es[1..] == [es[1]] && es[1..][1..] == [];
    assert AfterAll(Next(c, es[1]), []) == Next(c, es[1]);
  }

  function LeftAfter(c: Chat, left: nat, es: seq<Event>): (n: nat)
    decreases |es|
  {
    if es == [] then left else LeftAfter(Next(c, es[0]), Left(c, left, es[0]), es[1..])
  }

  /** Over every run: ids are unique across conversations, and on display are the messages that "-1" held when it was
      last left and then those stored for the conversation selected, each once and in order; so the display is the
      stored conversation exactly if there are no such messages or "-1" is selected itself. */
  lemma {:induction false} DisplayAfterAnyRun(c: Chat, left: nat, es: seq<Event>)
    requires UniqueIds(c.store, c.msgId) && Displays(c, left)
    ensures var r := AfterAll(c, es);
            && UniqueIds(r.store, r.msgId) && Displays(r, LeftAfter(c, left, es))
            && Shows(r.shown, Leftover(r, LeftAfter(c, left, es)) + Stored(r.store, r.current))
    ensures var r := AfterAll(c, es); Faithful(r) <==> r.current == NO_ONE || LeftAfter(c, left, es) == 0
    decreases |es|
  {
    if es == [] {
      FaithfulWithout(c, left);
    } else {
      NextDisplays(c, left, es[0]);
      DisplayAfterAnyRun(Next(c, es[0]), Left(c, left, es[0]), es[1..]);
    }
  }

  /** Over every run that stores nothing under "-1": ids are unique across conversations and the bubbles on display are
      the messages stored for the conversation selected, each once and in order. */
  lemma {:induction false} DisplayEqualsStore(c: Chat, es: seq<Event>)
    requires UniqueIds(c.store, c.msgId) && Faithful(c) && Stored(c.store, NO_ONE) == []
    requires forall e <- es :: e.Arrive? ==> e.opposite != NO_ONE
    ensures var r := AfterAll(c, es);
            UniqueIds(r.store, r.msgId) && Faithful(r) && Shows(r.shown, Stored(r.store, r.current))
    decreases |es|
  {
    if es == [] {
    } else {
      assert es[0] in es;
      FaithfulIff(c, es[0]);
      DisplayEqualsStore(Next(c, es[0]), es[1..]);
    }
  }

  /** So it is from the start, on any store with nothing under "-1". */
  lemma DisplayEqualsStoreFromStart(store: Store, msgId: nat, es: seq<Event>)
    requires UniqueIds(store, msgId) && Stored(store, NO_ONE) == []
    requires forall e <- es :: e.Arrive? ==> e.opposite != NO_ONE
    ensures var r := AfterAll(NewChat(store, msgId), es); Faithful(r) && Shows(r.shown, Stored(r.store, r.current))
  {
    DisplayEqualsStore(NewChat(store, msgId), es);
  }

  // ----- what is stored and shown, told from the items -----

  /** The conversation an item belongs to is that with its sender, or with its recipient if the user sent it. */
  predicate OtherParty(item: Incoming, me: string, who: string)
  {
    (item.fromid != me && item.fromid == who) || (item.fromid == me && item.toid == who)
  }

  /** The items of one conversation, in order. */
  function Concerning(items: seq<Incoming>, me: string, who: string): (r: seq<Incoming>)
  {
    if items == [] then []
    else (if OtherParty(items[0], me, who) then [items[0]] else []) + Concerning(items[1..], me, who)
  }

  ghost predicate Records(m: Msg, item: Incoming, me: string, who: string)
  {
    m.text == item.text && m.time == item.time && m.opposite == who && (m.owner == MYSELF <==> item.fromid == me)
  }

  /** `after` is `before` and then the items, in order, under new and increasing ids. */
  ghost predicate Grows(before: seq<Msg>, after: seq<Msg>, items: seq<Incoming>, me: string, who: string, msgId: nat)
  {
    && |after| == |before| + |items| && after[..|before|] == before
    && (forall j :: 0 <= j < |items| ==> Records(after[|before| + j], items[j], me, who))
    && (forall j :: |before| <= j < |after| ==> msgId <= after[j].id)
    && (forall i, j :: |before| <= i < j < |after| ==> after[i].id < after[j].id)
  }

  lemma GrowsByNone(before: seq<Msg>, me: string, who: string, msgId: nat)
    ensures Grows(before, before, [], me, who, msgId)
  {
  }

  lemma GrowsFirst(before: seq<Msg>, m: Msg, after: seq<Msg>, items: seq<Incoming>, me: string, who: string, msgId: nat)
    requires items != [] && Records(m, items[0], me, who) && m.id == msgId
    requires Grows(before + [m], after, items[1..], me, who, msgId + 1)
    ensures Grows(before, after, items, me, who, msgId)
  {
    SliceOfTake(after, |before| + 1, 0, |before|);
    assert after[..|before| + 1][..|before|] == before;
    assert after[|before|] == (before + [m])[|before|] == m;
    forall j | 0 <= j < |items| ensures Records(after[|before| + j], items[j], me, who) {
      if j > 0 {
        assert items[1..][j - 1] == items[j];
      }
    }
  }

  lemma GrowsLater(before: seq<Msg>, after: seq<Msg>, items: seq<Incoming>, me: string, who: string, msgId: nat)
    requires Grows(before, after, items, me, who, msgId + 1)
    ensures Grows(before, after, items, me, who, msgId)
  {
  }

  lemma ArrivalsHead(items: seq<Incoming>, me: string)
    requires items != []
    ensures Arrivals(items, me)[0] == ArrivalOf(items[0], me) && Arrivals(items, me)[1..] == Arrivals(items[1..], me)
  {
  }

  lemma ArrivalStored(c: Chat, item: Incoming, me: string, who: string)
    ensures var r := Next(c, ArrivalOf(item, me));
            && r.msgId == c.msgId + 1 && r.current == c.current
            && Stored(r.store, who)
               == Stored(c.store, who)
                  + if OtherParty(item, me, who)
                    then [Msg(c.msgId, item.text, item.time, who, if item.fromid == me then MYSELF else OTHERS)]
                    else []
  {
  }

  lemma GrowsByItem(before: seq<Msg>, next: seq<Msg>, after: seq<Msg>, items: seq<Incoming>, me: string, who: string,
                    msgId: nat)
    requires items != []
    requires var item := items[0];
             next == before + if OtherParty(item, me, who)
                              then [Msg(msgId, item.text, item.time, who, if item.fromid == me then MYSELF else OTHERS)]
                              else []
    requires Grows(next, after, Concerning(items[1..], me, who), me, who, msgId + 1)
    ensures Grows(before, after, Concerning(items, me, who), me, who, msgId)
  {
    var all, rest := Concerning(items, me, who), Concerning(items[1..], me, who);
    if OtherParty(items[0], me, who) {
      assert all[1..] == rest;
      GrowsFirst(before, next[|before|], after, all, me, who, msgId);
    } else {
      assert all == rest && next == before;
      GrowsLater(before, after, all, me, who, msgId);
    }
  }

  /** Every conversation grows by exactly the items whose other party it is with, in order, each with its text, its time
      and its owner. */
  lemma {:induction false} ArrivalsStored(c: Chat, items: seq<Incoming>, me: string, who: string)
    ensures var r := AfterAll(c, Arrivals(items, me));
            && Grows(Stored(c.store, who), Stored(r.store, who), Concerning(items, me, who), me, who, c.msgId)
            && r.msgId == c.msgId + |items| && r.current == c.current
    decreases |items|
  {
    if items == [] {
      GrowsByNone(Stored(c.store, who), me, who, c.msgId);
    } else {
      var next := Next(c, ArrivalOf(items[0], me));
      ArrivalsHead(items, me);
      ArrivalStored(c, items[0], me, who);
      ArrivalsStored(next, items[1..], me, who);
      var r := AfterAll(next, Arrivals(items[1..], me));
      assert r == AfterAll(c, Arrivals(items, me));
      GrowsByItem(Stored(c.store, who), Stored(next.store, who), Stored(r.store, who), items, me, who, c.msgId);
    }
  }

  /** The user has no conversation with himself, unless he writes to himself. */
  lemma {:induction false} NothingUnderOneself(items: seq<Incoming>, me: string)
    requires forall item <- items :: item.fromid != item.toid
    ensures Concerning(items, me, me) == []
  {
    if items == [] {
    } else {
      assert items[0] in items && forall item <- items[1..] :: item in items;
      NothingUnderOneself(items[1..], me);
    }
  }

  lemma {:induction false} ArrivalsKeepLeft(c: Chat, left: nat, items: seq<Incoming>, me: string)
    ensures LeftAfter(c, left, Arrivals(items, me)) == left
    decreases |items|
  {
    var es := Arrivals(items, me);
    if items == [] {
    } else {
      ArrivalsHead(items, me);
      ArrivalsKeepLeft(Next(c, es[0]), left, items[1..], me);
    }
  }

  /** The bubbles added are those items, in order, each with its text and time, on the user's side exactly if the user
      sent it. */
  ghost predicate ShowsItems(before: seq<Bubble>, after: seq<Bubble>, items: seq<Incoming>, me: string)
  {
    && |after| == |before| + |items| && after[..|before|] == before
    && forall j :: 0 <= j < |items| ==> IsBubbleOf(after[|before| + j], items[j], me)
  }

  predicate IsBubbleOf(b: Bubble, item: Incoming, me: string)
  {
    b.text == item.text && b.time == item.time && (b.owner == MYSELF <==> item.fromid == me)
  }

  lemma GrownShows(before: seq<Msg>, after: seq<Msg>, items: seq<Incoming>, me: string, who: string, msgId: nat,
                   shown: seq<Bubble>)
    requires Grows(before, after, items, me, who, msgId)
    ensures ShowsItems(shown, shown + BubblesOf(after[|before|..]), items, me)
  {
    var more := BubblesOf(after[|before|..]);
    forall j | 0 <= j < |items| ensures IsBubbleOf((shown + more)[|shown| + j], items[j], me) {
      assert more[j] == BubbleOf(after[|before|..][j]);
      assert Records(after[|before| + j], items[j], me, who);
    }
  }

  lemma ArrivalsDisplay(c: Chat, left: nat, items: seq<Incoming>, me: string)
    requires UniqueIds(c.store, c.msgId) && Displays(c, left)
    ensures Displays(AfterAll(c, Arrivals(items, me)), left)
  {
    ArrivalsKeepLeft(c, left, items, me);
    DisplayAfterAnyRun(c, left, Arrivals(items, me));
  }

  /** The display grows by exactly the items of the conversation selected, and not at all by others. */
  lemma ArrivalsShown(c: Chat, left: nat, items: seq<Incoming>, me: string)
    requires UniqueIds(c.store, c.msgId) && Displays(c, left)
    ensures ShowsItems(c.shown, AfterAll(c, Arrivals(items, me)).shown, Concerning(items, me, c.current), me)
  {
    var r := AfterAll(c, Arrivals(items, me));
    ArrivalsStored(c, items, me, c.current);
    ArrivalsStored(c, items, me, NO_ONE);
    ArrivalsDisplay(c, left, items, me);
    ShownGrows(c, r, left);
    GrownShows(Stored(c.store, c.current), Stored(r.store, c.current), Concerning(items, me, c.current), me, c.current,
               c.msgId, c.shown);
  }

  lemma ShownGrows(c: Chat, r: Chat, left: nat)
    requires Displays(c, left) && Displays(r, left) && r.current == c.current
    requires Stored(c.store, NO_ONE) <= Stored(r.store, NO_ONE)
    requires Stored(c.store, c.current) <= Stored(r.store, c.current)
    ensures r.shown == c.shown + BubblesOf(Stored(r.store, c.current)[|Stored(c.store, c.current)|..])
  {
    LeftoverKept(c, r, left);
    var first, msgs, after := Leftover(c, left), Stored(c.store, c.current), Stored(r.store, c.current);
    Split(after, |msgs|);
    Assoc(first, msgs, after[|msgs|..]);
    BubblesOfConcat(first + msgs, after[|msgs|..]);
  }

  lemma LeftoverKept(c: Chat, r: Chat, left: nat)
    requires left <= |Stored(c.store, NO_ONE)| && r.current == c.current
    requires Stored(c.store, NO_ONE) <= Stored(r.store, NO_ONE)
    ensures Leftover(r, left) == Leftover(c, left)
  {
  }

  /** An own message, not empty, to the conversation selected: it is stored last there, as the user's, and is the one
      bubble more; otherwise nothing happens. */
  lemma SentStoredAndShown(c: Chat, left: nat, text: string, time: string)
    requires UniqueIds(c.store, c.msgId) && Displays(c, left)
    ensures var r := Next(c, Send(text, time));
            if text == "" || c.current == NO_ONE then r == c
            else
              && r.msgId == c.msgId + 1 && r.current == c.current
              && r.store == c.store[c.current := Stored(c.store, c.current)
                                                   + [Msg(c.msgId, text, time, c.current, MYSELF)]]
              && r.shown == c.shown + [Bubble(Decimal(c.msgId), MYSELF, text, time)]
  {
    if text != "" && c.current != NO_ONE {
      FlushIsNoop(c, left);
      var r := Next(c, Send(text, time));
      var m := Msg(c.msgId, text, time, c.current, MYSELF);
      NextDisplays(c, left, Send(text, time));
      assert Leftover(r, left) == Leftover(c, left);
      Assoc(Leftover(c, left), Stored(c.store, c.current), [m]);
      BubblesOfConcat(Leftover(c, left) + Stored(c.store, c.current), [m]);
    }
  }
}
