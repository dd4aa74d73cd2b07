/** The status server's token table.  `GetChartServer` erases a uid's token and later, under a second lock, inserts a
    fresh one if the uid is absent; calls of any users interleave between the two steps. */
module TokenTable {
  import opened Seqs

  datatype Step =
    | Erase(call: nat, uid: string)
    | Insert(call: nat, uid: string, token: string)

  /** What a locked section does: erase if present, insert if absent. */
  function Apply(table: map<string, string>, s: Step): (r: map<string, string>)
  {
    match s
    case Erase(_, uid) => table - {uid}
    case Insert(_, uid, token) => if uid in table then table else table[uid := token]
  }

  function Table(trace: seq<Step>): (t: map<string, string>)
  {
    if trace == [] then map[] else Apply(Table(trace[..|trace| - 1]), trace[|trace| - 1])
  }

  /** The test `Login` makes. */
  predicate Validates(trace: seq<Step>, uid: string, token: string)
  {
    uid in Table(trace) && Table(trace)[uid] == token
  }

  predicate InsertsFor(s: Step, uid: string)
  {
    s.Insert? && s.uid == uid
  }

  predicate ErasesFor(s: Step, uid: string)
  {
    s.Erase? && s.uid == uid
  }

  predicate NoErase(trace: seq<Step>, uid: string, from: nat)
  {
    forall j :: from <= j < |trace| ==> !ErasesFor(trace[j], uid)
  }

  /** Step `i` is the first insert for `uid` since the uid was last erased. */
  ghost predicate InForce(trace: seq<Step>, i: int, uid: string)
  {
    && 0 <= i < |trace| && InsertsFor(trace[i], uid) && NoErase(trace, uid, i + 1)
    && forall j :: 0 <= j < i && InsertsFor(trace[j], uid) ==> exists e :: j < e < i && ErasesFor(trace[e], uid)
  }

  /** How traces arise: a call erases once, then inserts at most once, for the same uid; tokens are fresh. */
  ghost predicate WellFormed(trace: seq<Step>)
  {
    && (forall i, j :: 0 <= i < j < |trace| && trace[i].call == trace[j].call ==>
          trace[i].Erase? && trace[j].Insert? && trace[i].uid == trace[j].uid)
    && (forall j :: 0 <= j < |trace| && trace[j].Insert? ==>
          exists i :: 0 <= i < j && trace[i] == Erase(trace[j].call, trace[j].uid))
    && (forall i, j :: 0 <= i < j < |trace| && trace[i].Insert? && trace[j].Insert? ==>
          trace[i].token != trace[j].token)
  }

  lemma InForceBefore(front: seq<Step>, s: Step, i: int, uid: string)
    requires i < |front|
    ensures InForce(front + [s], i, uid) <==> InForce(front, i, uid) && !ErasesFor(s, uid)
  {
    var trace := front + [s];
    assert trace[|front|] == s;
    assert forall j :: 0 <= j < |front| ==> trace[j] == front[j];
    assert 0 <= i ==> (NoErase(trace, uid, i + 1) <==> NoErase(front, uid, i + 1) && !ErasesFor(s, uid));
  }

  /** The uid has been erased since each insert for it. */
  ghost predicate AllErased(trace: seq<Step>, uid: string)
  {
    forall j :: 0 <= j < |trace| && InsertsFor(trace[j], uid) ==>
      exists e :: j < e < |trace| && ErasesFor(trace[e], uid)
  }

  lemma InForceLast(front: seq<Step>, s: Step, uid: string)
    ensures InForce(front + [s], |front|, uid) <==> InsertsFor(s, uid) && AllErased(front, uid)
  {
    var trace := front + [s];
    assert trace[|front|] == s;
    assert forall j :: 0 <= j < |front| ==> trace[j] == front[j];
    if InForce(trace, |front|, uid) {
      forall j | 0 <= j < |front| && InsertsFor(front[j], uid)
        ensures exists e :: j < e < |front| && ErasesFor(front[e], uid)
      {
        assert InsertsFor(trace[j], uid);
        var e :| j < e < |front| && ErasesFor(trace[e], uid);
        assert ErasesFor(front[e], uid);
      }
    }
    if InsertsFor(s, uid) && AllErased(front, uid) {
      forall j | 0 <= j < |front| && InsertsFor(trace[j], uid)
        ensures exists e :: j < e < |front| && ErasesFor(trace[e], uid)
      {
        assert InsertsFor(front[j], uid);
        var e :| j < e < |front| && ErasesFor(front[e], uid);
        assert ErasesFor(trace[e], uid);
      }
    }
  }

  /** Which insert put the table's entry for `uid` there. */
  function Source(trace: seq<Step>, uid: string): (i: Option<nat>)
    ensures i.Some? ==> i.value < |trace| && InsertsFor(trace[i.value], uid)
    ensures uid in Table(trace) <==> i.Some?
    ensures i.Some? ==> Table(trace)[uid] == trace[i.value].token
    decreases |trace|
  {
    if trace == [] then None
    else
      var n := |trace| - 1;
      var before := Source(trace[..n], uid);
      if ErasesFor(trace[n], uid) then None
      else if InsertsFor(trace[n], uid) && before == None then Some(n)
      else before
  }

  /** The insert in force is the one the table's entry came from, and without one the uid was erased since every
      insert. */
  lemma {:induction false} SourceIsInForce(trace: seq<Step>, uid: string)
    ensures forall i :: InForce(trace, i, uid) <==> i >= 0 && Source(trace, uid) == Some(i)
    ensures AllErased(trace, uid) <==> Source(trace, uid) == None
    decreases |trace|
  {
    if trace == [] {
    } else {
      var n := |trace| - 1;
      var front, s := trace[..n], trace[n];
      assert trace == front + [s];
      SourceIsInForce(front, uid);
      InForceLast(front, s, uid);
      forall i ensures InForce(trace, i, uid) <==> i >= 0 && Source(trace, uid) == Some(i) {
        if i < n {
          InForceBefore(front, s, i, uid);
        }
      }
      AllErasedStep(front, s, uid);
    }
  }

  lemma AllErasedStep(front: seq<Step>, s: Step, uid: string)
    ensures AllErased(front + [s], uid) <==> ErasesFor(s, uid) || (AllErased(front, uid) && !InsertsFor(s, uid))
  {
    var trace := front + [s];
    assert trace[|front|] == s;
    assert forall j :: 0 <= j < |front| ==> trace[j] == front[j];
    if AllErased(trace, uid) && !ErasesFor(s, uid) {
      forall j | 0 <= j < |front| && InsertsFor(front[j], uid)
        ensures exists e :: j < e < |front| && ErasesFor(front[e], uid)
      {
        assert InsertsFor(trace[j], uid);
        var e :| j < e < |trace| && ErasesFor(trace[e], uid);
        assert ErasesFor(front[e], uid);
      }
      assert !InsertsFor(trace[|front|], uid);
    }
    if AllErased(front, uid) && !InsertsFor(s, uid) {
      forall j | 0 <= j < |trace| && InsertsFor(trace[j], uid)
        ensures exists e :: j < e < |trace| && ErasesFor(trace[e], uid)
      {
        assert InsertsFor(front[j], uid);
        var e :| j < e < |front| && ErasesFor(front[e], uid);
        assert ErasesFor(trace[e], uid);
      }
    }
    if ErasesFor(s, uid) {
      assert ErasesFor(trace[|front|], uid);
    }
  }

  /** A token validates for a uid exactly when it was inserted for that uid, first since the last erase of the uid,
      and no erase of the uid has followed. */
  lemma ValidatesIff(trace: seq<Step>, uid: string, token: string)
    ensures Validates(trace, uid, token) <==> exists i :: InForce(trace, i, uid) && trace[i].token == token
  {
    SourceIsInForce(trace, uid);
    if Validates(trace, uid, token) {
      var i := Source(trace, uid).value;
      assert InForce(trace, i, uid) && trace[i].token == token;
    }
  }

  /** A token that validates was issued to that uid, and the uid has not been erased since. */
  lemma ValidWasIssued(trace: seq<Step>, uid: string, token: string)
    requires Validates(trace, uid, token)
    ensures exists i :: 0 <= i < |trace| && trace[i].Insert? && trace[i].uid == uid && trace[i].token == token
                        && NoErase(trace, uid, i + 1)
  {
    ValidatesIff(trace, uid, token);
    var i :| InForce(trace, i, uid) && trace[i].token == token;
    assert trace[i].Insert?;
  }

  /** A token issued before an erase of its uid never validates again, for any uid, whatever follows. */
  lemma ErasedNeverValid(trace: seq<Step>, i: nat, e: nat, uid: string)
    requires WellFormed(trace) && i < e < |trace| && trace[i].Insert? && ErasesFor(trace[e], trace[i].uid)
    ensures !Validates(trace, uid, trace[i].token)
  {
    ValidatesIff(trace, uid, trace[i].token);
    assert !NoErase(trace, trace[i].uid, i + 1);
    assert !InForce(trace, i, uid);
    assert forall j :: InForce(trace, j, uid) ==> trace[j].token != trace[i].token;
  }

  /** Every call that erased for `uid` has inserted. */
  ghost predicate Finished(trace: seq<Step>, uid: string)
  {
    forall i :: 0 <= i < |trace| && ErasesFor(trace[i], uid) ==>
      exists j :: 0 <= j < |trace| && InsertsFor(trace[j], uid) && trace[j].call == trace[i].call
  }

  ghost predicate LastErase(trace: seq<Step>, e: nat, uid: string)
  {
    e < |trace| && ErasesFor(trace[e], uid) && NoErase(trace, uid, e + 1)
  }

  /** Once all calls for a uid have finished, exactly one token validates for it: the one issued by a call that
      overlaps the last erase, having erased no later and inserted after it. */
  lemma OneTokenWhenFinished(trace: seq<Step>, uid: string) returns (erased: nat, last: nat, inserted: nat)
    requires WellFormed(trace) && Finished(trace, uid)
    requires exists s <- trace :: ErasesFor(s, uid)
    ensures erased <= last < inserted < |trace| && LastErase(trace, last, uid)
    ensures trace[inserted].Insert? && trace[erased] == Erase(trace[inserted].call, uid)
    ensures forall token :: Validates(trace, uid, token) <==> token == trace[inserted].token
  {
    last := FindLastErase(trace, uid);
    var j := InsertOf(trace, last, uid);
    inserted := FirstInsertAfter(trace, uid, last, j);
    assert InForce(trace, inserted, uid);
    ValidatesIff(trace, uid, trace[inserted].token);
    erased :| 0 <= erased < inserted && trace[erased] == Erase(trace[inserted].call, uid);
    assert ErasesFor(trace[erased], uid);
  }

  /** The insert of a finished call comes after its erase. */
  lemma InsertOf(trace: seq<Step>, e: nat, uid: string) returns (j: nat)
    requires WellFormed(trace) && Finished(trace, uid) && e < |trace| && ErasesFor(trace[e], uid)
    ensures e < j < |trace| && InsertsFor(trace[j], uid) && trace[j].call == trace[e].call
  {
    j :| 0 <= j < |trace| && InsertsFor(trace[j], uid) && trace[j].call == trace[e].call;
    assert trace[e].Erase? && trace[j].Insert?;
    var first, second := if j < e then j else e, if j < e then e else j;
    assert trace[first].Erase? && trace[second].Insert?;
  }

  lemma {:induction false} FindLastErase(trace: seq<Step>, uid: string) returns (e: nat)
    requires exists s <- trace :: ErasesFor(s, uid)
    ensures LastErase(trace, e, uid)
    decreases |trace|
  {
    var n := |trace| - 1;
    if ErasesFor(trace[n], uid) {
      return n;
    }
    var front := trace[..n];
    assert exists s <- front :: ErasesFor(s, uid) by {
      var s :| s in trace && ErasesFor(s, uid);
      assert s in front;
    }
    e := FindLastErase(front, uid);
    assert trace[e] == front[e];
    forall j | e + 1 <= j < |trace| ensures !ErasesFor(trace[j], uid) {
      if j < n {
        assert trace[j] == front[j];
      }
    }
  }

  lemma FirstInsertAfter(trace: seq<Step>, uid: string, last: nat, j: nat) returns (i: nat)
    requires last < j < |trace| && InsertsFor(trace[j], uid) && ErasesFor(trace[last], uid)
    ensures last < i <= j && InsertsFor(trace[i], uid)
    ensures forall l :: 0 <= l < i && InsertsFor(trace[l], uid) ==> exists e :: l < e < i && ErasesFor(trace[e], uid)
  {
    i := last + 1;
    while !InsertsFor(trace[i], uid)
      invariant last < i <= j
      invariant forall l :: last < l < i ==> !InsertsFor(trace[l], uid)
      decreases j - i
    {
      i := i + 1;
    }
    forall l | 0 <= l < i && InsertsFor(trace[l], uid)
      ensures exists e :: l < e < i && ErasesFor(trace[e], uid)
    {
      assert l < last;
    }
  }
}
