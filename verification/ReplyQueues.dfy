/** How `ChatWidget` matches replies to what it asked for: one queue of callbacks shared by three kinds of request, and
    one queue of labels that await a head image.  The server answers each request once, in order. */
module ReplyQueues {
  import opened Seqs

  datatype Kind = BY_ID | ACCEPT | BY_ACCOUNT | HEAD

  /** A request on its way, with its number; for a head image also the number of the label queued for it. */
  datatype Request = Request(kind: Kind, number: nat, widget: nat)

  /** Which queued entry the reply to which request took. */
  datatype Match = Match(request: nat, entry: nat)

  /** A label given an image: the label the image was asked for, the label it went to, and the head replies that had
      reported failure by then. */
  datatype Image = Image(asked: nat, given: nat, failedBefore: nat)

  datatype Queues = Queues(
    callbacks: seq<nat>,         // by the number of the request that queued them
    headWidgets: seq<nat>,       // labels, numbered in the order queued
    inFlight: seq<Request>,
    next: nat,                   // requests numbered so far
    queued: nat,                 // labels queued so far
    failedHeads: nat,            // head replies that reported failure
    consumed: seq<Match>,        // callbacks taken off, by which reply
    images: seq<Image>)          // labels given an image

  const EMPTY_QUEUES: Queues := Queues([], [], [], 0, 0, 0, [], [])

  datatype Event =
    | Ask(kind: Kind)
    | Reply(ok: bool, searchShown: bool)    // the reply to the oldest request on its way

  predicate QueuesCallback(kind: Kind)
  {
    kind == BY_ID || kind == ACCEPT
  }

  /** Every entry is queued as its request goes out; a search for an account queues none. */
  function Asked(q: Queues, kind: Kind): (r: Queues)
  {
    var v := q.(inFlight := q.inFlight + [Request(kind, q.next, q.queued)], next := q.next + 1);
    if QueuesCallback(kind) then v.(callbacks := q.callbacks + [q.next])
    else if kind == HEAD then v.(headWidgets := q.headWidgets + [q.queued], queued := q.queued + 1)
    else v
  }

  function TakeCallback(q: Queues, request: nat): (r: Queues)
  {
    if q.callbacks == [] then q
    else q.(callbacks := q.callbacks[1..], consumed := q.consumed + [Match(request, q.callbacks[0])])
  }

  function HeadReply(q: Queues, widget: nat, ok: bool): (r: Queues)
  {
    if !ok then q.(failedHeads := q.failedHeads + 1)
    else if q.headWidgets == [] then q
    else q.(headWidgets := q.headWidgets[1..], images := q.images + [Image(widget, q.headWidgets[0], q.failedHeads)])
  }

  function Replied(q: Queues, ok: bool, searchShown: bool): (r: Queues)
    requires q.inFlight != []
  {
    var request := q.inFlight[0];
    var v := q.(inFlight := q.inFlight[1..]);
    match request.kind
    case BY_ID | ACCEPT => TakeCallback(v, request.number)
    case BY_ACCOUNT =>
      if q.callbacks != [] then TakeCallback(v, request.number)
      else if !ok && searchShown then v
      else Asked(v, HEAD)
    case HEAD => HeadReply(v, request.widget, ok)
  }

  predicate Enabled(q: Queues, e: Event)
  {
    e.Reply? ==> q.inFlight != []
  }

  function Next(q: Queues, e: Event): (r: Queues)
    requires Enabled(q, e)
  {
    match e
    case Ask(kind) => Asked(q, kind)
    case Reply(ok, searchShown) => Replied(q, ok, searchShown)
  }

  /** The two queues are the widget's own; `next` and `queued` name the callbacks and labels put in them, which the
      source holds by value and by pointer.  What is on its way and what happened before is ghost. */
  class ChatWidget {
    var callbacks: seq<nat>
    var headWidgets: seq<nat>
    var next: nat
    var queued: nat
    ghost var inFlight: seq<Request>
    ghost var failedHeads: nat
    ghost var consumed: seq<Match>
    ghost var images: seq<Image>

    ghost function View(): (q: Queues)
      reads this
    {
      Queues(callbacks, headWidgets, inFlight, next, queued, failedHeads, consumed, images)
    }

    constructor ()
      ensures View() == EMPTY_QUEUES
    {
      callbacks, headWidgets, next, queued := [], [], 0, 0;
      inFlight, failedHeads, consumed, images := [], 0, [], [];
    }

    method SendRequest(kind: Kind)
      modifies this
      ensures View() == Asked(old(View()), kind)
    {
      inFlight := inFlight + [Request(kind, next, queued)];
      if kind == BY_ID || kind == ACCEPT {
        callbacks := callbacks + [next];
      } else if kind == HEAD {
        headWidgets := headWidgets + [queued];
        queued := queued + 1;
      }
      next := next + 1;
    }

    /** The handler registered for replies of this kind. */
    method OnReply(kind: Kind, ok: bool, searchShown: bool)
      requires inFlight != [] && inFlight[0].kind == kind
      modifies this
      ensures View() == Replied(old(View()), ok, searchShown)
    {
      ghost var request := inFlight[0];
      inFlight := inFlight[1..];
      match kind
      case BY_ID | ACCEPT =>
        if callbacks != [] {
          PopCallback(request.number);
        }
      case BY_ACCOUNT =>
        if callbacks != [] {
          PopCallback(request.number);
          return;
        }
        if !ok && searchShown {
          return;
        }
        SendRequest(HEAD);
      case HEAD =>
        if ok {
          if headWidgets == [] {
            return;
          }
          images := images + [Image(request.widget, headWidgets[0], failedHeads)];
          headWidgets := headWidgets[1..];
        } else {
          failedHeads := failedHeads + 1;
        }
    }

    method PopCallback(ghost request: nat)
      requires callbacks != []
      modifies this`callbacks, this`consumed
      ensures View() == TakeCallback(old(View()), request)
    {
      consumed := consumed + [Match(request, callbacks[0])];
      callbacks := callbacks[1..];
    }
  }

  // ----- callbacks -----

  /** The requests on their way that queued a callback. */
  function Awaiting(rs: seq<Request>): (ns: seq<nat>)
  {
    if rs == [] then [] else (if QueuesCallback(rs[0].kind) then [rs[0].number] else []) + Awaiting(rs[1..])
  }

  lemma {:induction false} AwaitingSnoc(rs: seq<Request>, r: Request)
    ensures Awaiting(rs + [r]) == Awaiting(rs) + if QueuesCallback(r.kind) then [r.number] else []
  {
    if rs == [] {
      assert rs + [r] == [r];
      assert Awaiting([r]) == if QueuesCallback(r.kind) then [r.number] else [];
    } else {
      var first := if QueuesCallback(rs[0].kind) then [rs[0].number] else [];
      assert (rs + [r])[0] == rs[0] && (rs + [r])[1..] == rs[1..] + [r];
      AwaitingSnoc(rs[1..], r);
      Assoc(first, Awaiting(rs[1..]), if QueuesCallback(r.kind) then [r.number] else []);
    }
  }

  /** The queue is the requests awaited, in order, and so far each callback went to its own reply. */
  ghost predicate Matched(q: Queues)
  {
    q.callbacks == Awaiting(q.inFlight) && forall m <- q.consumed :: m.request == m.entry
  }

  /** Some callback went to the reply of another request. */
  ghost predicate Mismatched(q: Queues)
  {
    exists m <- q.consumed :: m.request != m.entry
  }

  /** The reply to an account search while some callback is queued: it is given to that callback. */
  predicate Intercepts(q: Queues, e: Event)
  {
    e.Reply? && q.inFlight != [] && q.inFlight[0].kind == BY_ACCOUNT && q.callbacks != []
  }

  /** Requests on their way have different numbers, given already. */
  ghost predicate Numbered(q: Queues)
  {
    && (forall i :: 0 <= i < |q.inFlight| ==> q.inFlight[i].number < q.next)
    && (forall i, j :: 0 <= i < j < |q.inFlight| ==> q.inFlight[i].number < q.inFlight[j].number)
  }

  lemma AskKeepsMatched(q: Queues, kind: Kind)
    requires Matched(q) && Numbered(q)
    ensures Matched(Asked(q, kind)) && Numbered(Asked(q, kind))
  {
    AwaitingSnoc(q.inFlight, Request(kind, q.next, q.queued));
  }

  /** The callback a search reply takes belongs to a later request. */
  lemma InterceptionMismatches(q: Queues, ok: bool, searchShown: bool)
    requires Matched(q) && Numbered(q) && Intercepts(q, Reply(ok, searchShown))
    ensures Mismatched(Replied(q, ok, searchShown)) && Numbered(Replied(q, ok, searchShown))
  {
    AwaitingIsLater(q.inFlight, 1);
    assert q.callbacks[0] in Awaiting(q.inFlight[1..]);
    var m := Match(q.inFlight[0].number, q.callbacks[0]);
    assert m in Replied(q, ok, searchShown).consumed;
  }

  lemma ReplyKeepsMatched(q: Queues, ok: bool, searchShown: bool)
    requires Matched(q) && Numbered(q) && q.inFlight != [] && !Intercepts(q, Reply(ok, searchShown))
    ensures Matched(Replied(q, ok, searchShown)) && Numbered(Replied(q, ok, searchShown))
  {
    var v := q.(inFlight := q.inFlight[1..]);
    if q.inFlight[0].kind == BY_ACCOUNT {
      assert Matched(v) && Numbered(v);
      AskKeepsMatched(v, HEAD);
    } else if QueuesCallback(q.inFlight[0].kind) {
      assert q.callbacks[0] == q.inFlight[0].number && q.callbacks[1..] == Awaiting(v.inFlight);
    } else {
      assert Matched(v) && Numbered(v);
    }
  }

  /** One event keeps replies and callbacks matched exactly unless a search reply finds a callback queued. */
  lemma MatchedIff(q: Queues, e: Event)
    requires Matched(q) && Numbered(q) && Enabled(q, e)
    ensures Matched(Next(q, e)) <==> !Intercepts(q, e)
    ensures Numbered(Next(q, e))
  {
    match e
    case Ask(kind) => AskKeepsMatched(q, kind);
    case Reply(ok, searchShown) =>
      if Intercepts(q, e) {
        InterceptionMismatches(q, ok, searchShown);
      } else {
        ReplyKeepsMatched(q, ok, searchShown);
      }
  }

  lemma {:induction false} AwaitingIsLater(rs: seq<Request>, from: nat)
    requires from <= |rs|
    ensures forall n <- Awaiting(rs[from..]) :: exists i :: from <= i < |rs| && rs[i].number == n
    decreases |rs| - from
  {
    if from == |rs| {
    } else {
      AwaitingIsLater(rs, from + 1);
      assert rs[from..][1..] == rs[from + 1..];
      forall n | n in Awaiting(rs[from..]) ensures exists i :: from <= i < |rs| && rs[i].number == n {
        if n !in Awaiting(rs[from + 1..]) {
          assert rs[from].number == n;
        }
      }
    }
  }

  predicate Run(q: Queues, es: seq<Event>)
    decreases |es|
  {
    es == [] || (Enabled(q, es[0]) && Run(Next(q, es[0]), es[1..]))
  }

  function After(q: Queues, es: seq<Event>): (r: Queues)
    requires Run(q, es)
    decreases |es|
  {
    if es == [] then q else After(Next(q, es[0]), es[1..])
  }

  predicate NeverIntercepts(q: Queues, es: seq<Event>)
    requires Run(q, es)
    decreases |es|
  {
    es == [] || (!Intercepts(q, es[0]) && NeverIntercepts(Next(q, es[0]), es[1..]))
  }

  lemma NextKeepsMismatch(q: Queues, e: Event)
    requires Mismatched(q) && Enabled(q, e)
    ensures Mismatched(Next(q, e))
  {
    var m :| m in q.consumed && m.request != m.entry;
    assert m in Next(q, e).consumed;
  }

  lemma {:induction false} RunKeepsMismatch(q: Queues, es: seq<Event>)
    requires Mismatched(q) && Run(q, es)
    ensures Mismatched(After(q, es))
    decreases |es|
  {
    if es == [] {
    } else {
      NextKeepsMismatch(q, es[0]);
      RunKeepsMismatch(Next(q, es[0]), es[1..]);
    }
  }

  /** Over every run, each callback is taken by the reply to the request that queued it, and those not yet answered
      stay queued, exactly if no search reply arrives while a callback is queued. */
  lemma {:induction false} CallbacksMatchIff(q: Queues, es: seq<Event>)
    requires Matched(q) && Numbered(q) && Run(q, es)
    ensures Matched(After(q, es)) <==> NeverIntercepts(q, es)
    ensures !Matched(After(q, es)) ==> Mismatched(After(q, es))
    decreases |es|
  {
    if es == [] {
    } else if Intercepts(q, es[0]) {
      InterceptionMismatches(q, es[0].ok, es[0].searchShown);
      RunKeepsMismatch(Next(q, es[0]), es[1..]);
    } else {
      MatchedIff(q, es[0]);
      CallbacksMatchIff(Next(q, es[0]), es[1..]);
    }
  }

  /** Two requests, an account search and then one that queues a callback: the search's reply takes the callback. */
  lemma SearchTakesCallback()
    ensures var es := [Ask(BY_ACCOUNT), Ask(BY_ID), Reply(true, false)];
            Run(EMPTY_QUEUES, es) && After(EMPTY_QUEUES, es).consumed == [Match(0, 1)]
            && !Matched(After(EMPTY_QUEUES, es))
  {
    var asked := Asked(Asked(EMPTY_QUEUES, BY_ACCOUNT), BY_ID);
    assert asked.inFlight == [Request(BY_ACCOUNT, 0, 0), Request(BY_ID, 1, 0)] && asked.callbacks == [1];
    var r := Replied(asked, true, false);
    assert r.consumed == [Match(0, 1)] && Match(0, 1) in r.consumed;
    var es := [Ask(BY_ACCOUNT), Ask(BY_ID), Reply(true, false)];
    assert es[1..] == [Ask(BY_ID), Reply(true, false)] && es[1..][1..] == [Reply(true, false)];
    assert es[1..][1..][1..] == [];
    assert Run(r, []) && Run(asked, es[1..][1..]);
    assert Run(Asked(EMPTY_QUEUES, BY_ACCOUNT), es[1..]);
  }

  /** Without searches nothing is ever intercepted. */
  lemma {:induction false} NoSearchNoIntercept(q: Queues, es: seq<Event>)
    requires Run(q, es)
    requires forall e <- es :: e != Ask(BY_ACCOUNT)
    requires forall r <- q.inFlight :: r.kind != BY_ACCOUNT
    ensures NeverIntercepts(q, es)
    decreases |es|
  {
    if es == [] {
    } else {
      assert es[0] in es;
      assert forall e <- es[1..] :: e in es;
      NoSearchNoIntercept(Next(q, es[0]), es[1..]);
    }
  }

  // ----- head images -----

  /** Labels asked for by requests on their way. */
  function LabelsAsked(rs: seq<Request>): (ls: seq<nat>)
  {
    if rs == [] then [] else (if rs[0].kind == HEAD then [rs[0].widget] else []) + LabelsAsked(rs[1..])
  }

  lemma {:induction false} LabelsAskedSnoc(rs: seq<Request>, r: Request)
    ensures LabelsAsked(rs + [r]) == LabelsAsked(rs) + if r.kind == HEAD then [r.widget] else []
  {
    if rs == [] {
      assert rs + [r] == [r];
      assert LabelsAsked([r]) == if r.kind == HEAD then [r.widget] else [];
    } else {
      var first := if rs[0].kind == HEAD then [rs[0].widget] else [];
      assert (rs + [r])[0] == rs[0] && (rs + [r])[1..] == rs[1..] + [r];
      LabelsAskedSnoc(rs[1..], r);
      Assoc(first, LabelsAsked(rs[1..]), if r.kind == HEAD then [r.widget] else []);
    }
  }

  function Range(from: nat, to: nat): (s: seq<nat>)
    requires from <= to
  {
    seq(to - from, i requires 0 <= i < to - from => from + i)
  }

  /** A search's reply that finds no callback queues a label and asks for its head image if the user was found, or if
      the search page is no longer shown; it does neither if a callback takes it or the failure is shown there. */
  lemma SearchReplyAsks(q: Queues, ok: bool, searchShown: bool)
    requires q.inFlight != [] && q.inFlight[0].kind == BY_ACCOUNT
    ensures var r := Next(q, Reply(ok, searchShown));
            if q.callbacks == [] && (ok || !searchShown) then
              && r.headWidgets == q.headWidgets + [q.queued] && r.queued == q.queued + 1
              && r.inFlight == q.inFlight[1..] + [Request(HEAD, q.next, q.queued)] && r.callbacks == []
            else
              && r.headWidgets == q.headWidgets && r.queued == q.queued && r.inFlight == q.inFlight[1..]
              && r.callbacks == if q.callbacks == [] then [] else q.callbacks[1..]
  {
  }

  /** Images are given to labels in the order the labels were queued; a failed reply leaves its label in place, so every
      later image goes to a label queued one earlier. */
  ghost predicate HeadsInOrder(q: Queues)
  {
    && |q.images| + q.failedHeads <= q.queued
    && LabelsAsked(q.inFlight) == Range(|q.images| + q.failedHeads, q.queued)
    && q.headWidgets == Range(|q.images|, q.queued)
    && forall j :: 0 <= j < |q.images| ==>
         && q.images[j].given == j && q.images[j].asked == j + q.images[j].failedBefore
         && q.images[j].failedBefore <= q.failedHeads
  }

  lemma AskKeepsHeads(q: Queues, kind: Kind)
    requires HeadsInOrder(q)
    ensures HeadsInOrder(Asked(q, kind))
  {
    LabelsAskedSnoc(q.inFlight, Request(kind, q.next, q.queued));
    if kind == HEAD {
      RangeSnoc(|q.images| + q.failedHeads, q.queued);
      RangeSnoc(|q.images|, q.queued);
    }
  }

  lemma RangeSnoc(from: nat, to: nat)
    requires from <= to
    ensures Range(from, to + 1) == Range(from, to) + [to]
  {
  }

  lemma HeadAnswered(q: Queues, ok: bool)
    requires HeadsInOrder(q) && q.inFlight != [] && q.inFlight[0].kind == HEAD
    ensures HeadsInOrder(HeadReply(q.(inFlight := q.inFlight[1..]), q.inFlight[0].widget, ok))
    ensures q.headWidgets != [] && q.headWidgets[0] == |q.images|
    ensures q.inFlight[0].widget == |q.images| + q.failedHeads
  {
    var done := |q.images| + q.failedHeads;
    assert LabelsAsked(q.inFlight)[0] == q.inFlight[0].widget == done;
    assert Range(done, q.queued)[1..] == Range(done + 1, q.queued);
    assert LabelsAsked(q.inFlight)[1..] == LabelsAsked(q.inFlight[1..]);
    assert Range(|q.images|, q.queued)[1..] == Range(|q.images| + 1, q.queued);
  }

  /** The j-th successful head reply goes to the j-th label queued, and was asked for the label queued as many places
      later as head replies failed before; so it is the right one exactly if none did. */
  lemma HeadReplyStep(q: Queues, ok: bool, searchShown: bool)
    requires HeadsInOrder(q) && q.inFlight != []
    ensures HeadsInOrder(Replied(q, ok, searchShown))
    ensures q.inFlight[0].kind == HEAD && ok ==>
              var r := Replied(q, ok, searchShown);
              && |r.images| == |q.images| + 1 && r.images[|q.images|].given == |q.images|
              && r.images[|q.images|].asked == r.images[|q.images|].given + q.failedHeads
              && (r.images[|q.images|].asked == r.images[|q.images|].given <==> q.failedHeads == 0)
  {
    if q.inFlight[0].kind == HEAD {
      HeadAnswered(q, ok);
    } else {
      var v := q.(inFlight := q.inFlight[1..]);
      assert LabelsAsked(v.inFlight) == LabelsAsked(q.inFlight);
      AskKeepsHeads(v, HEAD);
    }
  }

  /** Two head images asked for and the first refused: the second one's image goes to the first label. */
  lemma FailureShiftsImage()
    ensures var es := [Ask(HEAD), Ask(HEAD), Reply(false, false), Reply(true, false)];
            Run(EMPTY_QUEUES, es) && After(EMPTY_QUEUES, es).images == [Image(1, 0, 1)]
  {
    var asked := Asked(Asked(EMPTY_QUEUES, HEAD), HEAD);
    assert asked.inFlight == [Request(HEAD, 0, 0), Request(HEAD, 1, 1)] && asked.headWidgets == [0, 1];
    var refused := Replied(asked, false, false);
    assert refused.inFlight == [Request(HEAD, 1, 1)];
    var r := Replied(refused, true, false);
    var es := [Ask(HEAD), Ask(HEAD), Reply(false, false), Reply(true, false)];
    assert es[1..][1..] == [Reply(false, false), Reply(true, false)] && es[1..][1..][1..] == [Reply(true, false)];
    assert Run(r, []) && Run(refused, [Reply(true, false)]);
    assert Run(asked, es[1..][1..]) && Run(Asked(EMPTY_QUEUES, HEAD), es[1..]);
  }

  /** In every reachable state the j-th image went to the j-th label queued although it was asked for the label queued
      as many places later as head replies had failed by then, and the labels waiting are those queued less the images
      given. */
  lemma {:induction false} HeadImagesInOrder(q: Queues, es: seq<Event>)
    requires HeadsInOrder(q) && Run(q, es)
    ensures HeadsInOrder(After(q, es))
    ensures var r := After(q, es);
            && |r.headWidgets| == r.queued - |r.images|
            && forall j :: 0 <= j < |r.images| ==>
                 r.images[j].given == j && r.images[j].asked == j + r.images[j].failedBefore
    decreases |es|
  {
    if es == [] {
    } else {
      match es[0] {
        case Ask(kind) => AskKeepsHeads(q, kind);
        case Reply(ok, searchShown) => HeadReplyStep(q, ok, searchShown);
      }
      HeadImagesInOrder(Next(q, es[0]), es[1..]);
    }
  }
}
