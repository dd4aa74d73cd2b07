/** How even the status server keeps the chat servers' login counts, when any number of `GetChartServer` calls and
    logins interleave.  A call copies `servers_[0]` before it takes the lock, so it may compare with a stale count. */
module LoadBalance {
  import opened Seqs

  const COUNT_LIMIT: nat := 0x1_0000_0000

  /** `count_++` on a 32-bit counter. */
  function Bump(c: nat): (r: nat)
  {
    (c + 1) % COUNT_LIMIT
  }

  datatype Choice = Choice(server: nat, count: nat)

  /** The running minimum over the first `n` servers, started with a copy of server 0 whose count was `copied`. */
  function Best(counts: seq<nat>, copied: nat, n: nat): (c: Choice)
    requires n <= |counts| && counts != []
    ensures c.server < |counts| && c.count <= copied
    ensures forall i :: 0 <= i < n ==> c.count <= counts[i]
    ensures c == Choice(0, copied) || (c.count < copied && c.count == counts[c.server] && c.server < n)
    ensures c.count < copied ==> forall i :: 0 <= i < c.server ==> c.count < counts[i]
  {
    if n == 0 then Choice(0, copied)
    else
      var best := Best(counts, copied, n - 1);
      if counts[n - 1] < best.count then Choice(n - 1, counts[n - 1]) else best
  }

  function Select(counts: seq<nat>, copied: nat): (s: nat)
    requires counts != []
    ensures s < |counts|
  {
    Best(counts, copied, |counts|).server
  }

  /** Per server: logins counted, clients assigned and not yet logged in.  For each call between its copy and its
      scan: the count it copied. */
  datatype Balance = Balance(counts: seq<nat>, out: seq<nat>, copies: seq<nat>, logins: nat)

  datatype Event =
    | Copy               // a call copies servers_[0]
    | Scan(call: nat)    // a call, by position among those in flight, scans the counts under the lock and assigns
    | Login(s: nat)      // an assigned client logs in on its server
    | Abandon(s: nat)    // an assigned client never will

  function Total(ns: seq<nat>): (t: nat)
  {
    if ns == [] then 0 else ns[0] + Total(ns[1..])
  }

  /** How many of `ns` are at most `m`. */
  function AtMost(ns: seq<nat>, m: nat): (n: nat)
    ensures n <= |ns|
  {
    if ns == [] then 0 else (if ns[0] <= m then 1 else 0) + AtMost(ns[1..], m)
  }

  /** `k` bounds the assignments outstanding, calls in flight included.  An assigned client logs in at most once, on
      the server it was given, and the counters have not wrapped around. */
  predicate Enabled(b: Balance, e: Event, k: nat)
  {
    && |b.out| == |b.counts| > 0
    && match e
       case Copy => Total(b.out) + |b.copies| + 1 <= k
       case Scan(call) => call < |b.copies|
       case Login(s) => s < |b.out| && b.out[s] > 0 && b.logins + 1 < COUNT_LIMIT
       case Abandon(s) => s < |b.out| && b.out[s] > 0
  }

  function Next(b: Balance, e: Event, k: nat): (r: Balance)
    requires Enabled(b, e, k)
  {
    match e
    case Copy => b.(copies := b.copies + [b.counts[0]])
    case Scan(call) =>
      var s := Select(b.counts, b.copies[call]);
      b.(out := b.out[s := b.out[s] + 1], copies := b.copies[..call] + b.copies[call + 1..])
    case Login(s) =>
      b.(counts := b.counts[s := Bump(b.counts[s])], out := b.out[s := b.out[s] - 1], logins := b.logins + 1)
    case Abandon(s) => b.(out := b.out[s := b.out[s] - 1])
  }

  predicate Run(b: Balance, es: seq<Event>, k: nat)
    decreases |es|
  {
    es == [] || (Enabled(b, es[0], k) && Run(Next(b, es[0], k), es[1..], k))
  }

  function After(b: Balance, es: seq<Event>, k: nat): (r: Balance)
    requires Run(b, es, k)
    decreases |es|
  {
    if es == [] then b else After(Next(b, es[0], k), es[1..], k)
  }

  function Fresh(servers: nat): (b: Balance)
  {
    Balance(seq(servers, _ => 0), seq(servers, _ => 0), [], 0)
  }

  // ----- the invariant -----

  /** Counted logins and outstanding assignments of one server stay within `k` of every count. */
  ghost predicate Even(b: Balance, k: nat)
    requires |b.out| == |b.counts|
  {
    forall s, t :: 0 <= s < |b.counts| && 0 <= t < |b.counts| ==> b.counts[s] + b.out[s] <= b.counts[t] + k
  }

  /** Server 0 is also charged, at every level some server has not passed, with the calls that would still choose
      it at that level. */
  ghost predicate CopiesCharged(b: Balance, k: nat)
    requires |b.out| == |b.counts| > 0
  {
    forall t, m: nat :: 0 <= t < |b.counts| && b.counts[t] <= m ==>
      b.counts[0] + b.out[0] + AtMost(b.copies, m) <= m + k
  }

  ghost predicate Inv(b: Balance, k: nat)
  {
    && |b.out| == |b.counts| > 0
    && Total(b.out) + |b.copies| <= k
    && b.logins < COUNT_LIMIT
    && (forall s :: 0 <= s < |b.counts| ==> b.counts[s] <= b.logins)
    && (forall i :: 0 <= i < |b.copies| ==> b.copies[i] <= b.counts[0])
    && Even(b, k)
    && CopiesCharged(b, k)
  }

  lemma {:induction false} TotalUpdate(ns: seq<nat>, i: nat, v: nat)
    requires i < |ns|
    ensures Total(ns[i := v]) == Total(ns) - ns[i] + v
    ensures ns[i] <= Total(ns)
  {
    if i == 0 {
      assert ns[i := v][1..] == ns[1..];
    } else {
      assert ns[i := v][1..] == ns[1..][i - 1 := v];
      TotalUpdate(ns[1..], i - 1, v);
    }
  }

  lemma {:induction false} AtMostConcat(a: seq<nat>, b: seq<nat>, m: nat)
    ensures AtMost(a + b, m) == AtMost(a, m) + AtMost(b, m)
  {
    if a == [] {
      assert a + b == b;
    } else {
      assert (a + b)[1..] == a[1..] + b;
      AtMostConcat(a[1..], b, m);
    }
  }

  lemma AtMostRemove(ns: seq<nat>, i: nat, m: nat)
    requires i < |ns|
    ensures AtMost(ns[..i] + ns[i + 1..], m) == AtMost(ns, m) - (if ns[i] <= m then 1 else 0)
  {
    AtMostConcat(ns[..i], ns[i + 1..], m);
    AtMostConcat(ns[..i], ns[i..], m);
    Split(ns, i);
    assert ns[i..][1..] == ns[i + 1..];
  }

  lemma CopyKeepsInv(b: Balance, k: nat)
    requires Inv(b, k) && Enabled(b, Copy, k)
    ensures Inv(Next(b, Copy, k), k)
  {
    var r := Next(b, Copy, k);
    TotalUpdate(b.out, 0, 0);
    forall t, m: nat | 0 <= t < |r.counts| && r.counts[t] <= m
      ensures r.counts[0] + r.out[0] + AtMost(r.copies, m) <= m + k
    {
      AtMostConcat(b.copies, [b.counts[0]], m);
    }
  }

  lemma ScanKeepsCharge(b: Balance, call: nat, k: nat)
    requires Inv(b, k) && Enabled(b, Scan(call), k)
    ensures CopiesCharged(Next(b, Scan(call), k), k)
  {
    var r := Next(b, Scan(call), k);
    forall t, m: nat | 0 <= t < |r.counts| && r.counts[t] <= m
      ensures r.counts[0] + r.out[0] + AtMost(r.copies, m) <= m + k
    {
      AtMostRemove(b.copies, call, m);
      assert b.counts[0] + b.out[0] + AtMost(b.copies, m) <= m + k;
    }
  }

  lemma ScanKeepsInv(b: Balance, call: nat, k: nat)
    requires Inv(b, k) && Enabled(b, Scan(call), k)
    ensures Inv(Next(b, Scan(call), k), k)
  {
    var r := Next(b, Scan(call), k);
    var s := Select(b.counts, b.copies[call]);
    TotalUpdate(b.out, s, b.out[s] + 1);
    ScanKeepsCharge(b, call, k);
    forall i, t | 0 <= i < |r.counts| && 0 <= t < |r.counts|
      ensures r.counts[i] + r.out[i] <= r.counts[t] + k
    {
      if i == 0 {
        assert r.counts[0] + r.out[0] + AtMost(r.copies, r.counts[t]) <= r.counts[t] + k;
      } else {
        assert b.counts[i] + b.out[i] <= b.counts[t] + k;
      }
    }
  }

  lemma LoginKeepsInv(b: Balance, s: nat, k: nat)
    requires Inv(b, k) && Enabled(b, Login(s), k)
    ensures Inv(Next(b, Login(s), k), k)
  {
    var r := Next(b, Login(s), k);
    TotalUpdate(b.out, s, b.out[s] - 1);
    assert r.counts[s] == b.counts[s] + 1;
    forall t, m: nat | 0 <= t < |r.counts| && r.counts[t] <= m
      ensures r.counts[0] + r.out[0] + AtMost(r.copies, m) <= m + k
    {
      assert b.counts[t] <= m;
    }
  }

  lemma AbandonKeepsInv(b: Balance, s: nat, k: nat)
    requires Inv(b, k) && Enabled(b, Abandon(s), k)
    ensures Inv(Next(b, Abandon(s), k), k)
  {
    var r := Next(b, Abandon(s), k);
    TotalUpdate(b.out, s, b.out[s] - 1);
    forall t, m: nat | 0 <= t < |r.counts| && r.counts[t] <= m
      ensures r.counts[0] + r.out[0] + AtMost(r.copies, m) <= m + k
    {
      assert b.counts[t] <= m;
    }
  }

  lemma {:induction false} RunKeepsInv(b: Balance, es: seq<Event>, k: nat)
    requires Inv(b, k) && Run(b, es, k)
    ensures Inv(After(b, es, k), k) && |After(b, es, k).counts| == |b.counts|
    decreases |es|
  {
    if es == [] {
    } else {
      match es[0] {
        case Copy => CopyKeepsInv(b, k);
        case Scan(call) => ScanKeepsInv(b, call, k);
        case Login(s) => LoginKeepsInv(b, s, k);
        case Abandon(s) => AbandonKeepsInv(b, s, k);
      }
      RunKeepsInv(Next(b, es[0], k), es[1..], k);
    }
  }

  lemma {:induction false} TotalZeros(n: nat)
    ensures Total(seq(n, _ => 0)) == 0
  {
    if n == 0 {
    } else {
      assert seq(n, _ => 0)[1..] == seq(n - 1, _ => 0);
      TotalZeros(n - 1);
    }
  }

  /** With at most `k` assignments outstanding, counts and outstanding assignments of every server stay within `k` of
      the smallest count, in every reachable state, even though calls compare with stale copies. */
  lemma LoadBalanceBound(servers: nat, es: seq<Event>, k: nat)
    requires servers > 0 && Run(Fresh(servers), es, k)
    ensures var b := After(Fresh(servers), es, k);
            && |b.counts| == |b.out| == servers
            && forall s, t :: 0 <= s < servers && 0 <= t < servers ==>
                 b.counts[s] + b.out[s] <= b.counts[t] + k && b.counts[s] - b.counts[t] <= k
  {
    TotalZeros(servers);
    RunKeepsInv(Fresh(servers), es, k);
    var b := After(Fresh(servers), es, k);
    forall s, t | 0 <= s < servers && 0 <= t < servers
      ensures b.counts[s] + b.out[s] <= b.counts[t] + k
    {
    }
  }

  // ----- the bound is reached -----

  /** `k` calls one after the other, none of whose clients has logged in yet. */
  function AssignEach(k: nat): (es: seq<Event>)
  {
    if k == 0 then [] else [Copy, Scan(0)] + AssignEach(k - 1)
  }

  function LoginEach(k: nat): (es: seq<Event>)
  {
    if k == 0 then [] else [Login(0)] + LoginEach(k - 1)
  }

  lemma {:induction false} RunConcat(b: Balance, es: seq<Event>, fs: seq<Event>, k: nat)
    requires Run(b, es, k) && Run(After(b, es, k), fs, k)
    ensures Run(b, es + fs, k) && After(b, es + fs, k) == After(After(b, es, k), fs, k)
    decreases |es|
  {
    if es == [] {
      assert es + fs == fs;
    } else {
      assert (es + fs)[1..] == es[1..] + fs;
      RunConcat(Next(b, es[0], k), es[1..], fs, k);
    }
  }

  lemma {:induction false} AssignAll(b: Balance, j: nat, k: nat)
    requires |b.out| == |b.counts| > 0 && b.copies == [] && Total(b.out) + j <= k
    requires forall s :: 0 <= s < |b.counts| ==> b.counts[s] == 0
    ensures Run(b, AssignEach(j), k)
    ensures After(b, AssignEach(j), k) == b.(out := b.out[0 := b.out[0] + j])
    decreases j
  {
    if j == 0 {
    } else {
      var es := AssignEach(j);
      var b1 := Next(b, Copy, k);
      assert b1.copies == [0];
      var b2 := Next(b1, Scan(0), k);
      assert b2 == b.(out := b.out[0 := b.out[0] + 1]);
      TotalUpdate(b.out, 0, b.out[0] + 1);
      AssignAll(b2, j - 1, k);
      assert es[1..] == [Scan(0)] + AssignEach(j - 1) && es[1..][1..] == AssignEach(j - 1);
    }
  }

  lemma {:induction false} LoginAll(b: Balance, j: nat, k: nat)
    requires |b.out| == |b.counts| > 0 && b.out[0] >= j
    requires b.logins + j < COUNT_LIMIT && b.counts[0] == b.logins
    ensures Run(b, LoginEach(j), k)
    ensures After(b, LoginEach(j), k).counts == b.counts[0 := b.counts[0] + j]
    decreases j
  {
    if j == 0 {
    } else {
      LoginAll(Next(b, Login(0), k), j - 1, k);
      assert LoginEach(j)[1..] == LoginEach(j - 1);
    }
  }

  /** `k` cannot be improved: with two servers or more some run makes two counts differ by `k` exactly. */
  lemma BoundIsTight(servers: nat, k: nat)
    requires servers >= 2 && k < COUNT_LIMIT
    ensures exists es :: Run(Fresh(servers), es, k)
                         && var counts := After(Fresh(servers), es, k).counts;
                            |counts| >= 2 && counts[0] == k && counts[1] == 0
  {
    var b := Fresh(servers);
    TotalZeros(servers);
    AssignAll(b, k, k);
    LoginAll(After(b, AssignEach(k), k), k, k);
    RunConcat(b, AssignEach(k), LoginEach(k), k);
    var es := AssignEach(k) + LoginEach(k);
    assert After(b, es, k).counts[0] == k && After(b, es, k).counts[1] == 0;
  }
}
