/** The store the sync routes write to. Its functions (upsertOrders,
    recalculateDailyMetrics, ...) are not part of this model: each call is
    recorded in a trace, and whether it returns or throws is read from an
    oracle indexed by the call's position in the trace. */
module Store {
  import opened Records

  /** One store call, with the arguments the routes pass. */
  datatype Call =
    | UpsertRecords(user: string, kind: SheetType, rows: seq<Record>)
    | UpsertSheetData(user: string, tab: string, customRows: seq<CustomRow>)
    | Recalculate(user: string, date: string)
    | CheckAlerts(user: string, date: string)
    | UpdateSheetLastSync(user: string, sheetId: string)
    | UpdateSyncTokenLastSync(token: string)
  {
    predicate IsUpsert() { UpsertRecords? || UpsertSheetData? }
    predicate IsDateWork() { Recalculate? || CheckAlerts? }
  }

  /** How a call ends: it throws, or it returns; `length` is the length of the
      array an upsert resolves to, 0 when it resolves to nothing. */
  datatype Answer = Throws | Returns(length: nat)

  class Database {
    /** Every call made so far, in order. */
    var trace: seq<Call>
    /** The reply to the call made at a given trace position. */
    const answer: (nat, Call) -> Answer

    constructor (answer: (nat, Call) -> Answer)
      ensures trace == [] && this.answer == answer
    {
      trace := [];
      this.answer := answer;
    }

    /** Makes one store call. */
    method Invoke(c: Call) returns (reply: Answer)
      modifies this
      ensures trace == old(trace) + [c]
      ensures reply == answer(|old(trace)|, c)
    {
      reply := answer(|trace|, c);
      trace := trace + [c];
    }
  }

  /** No call of the plan, made from trace position pos on, throws. */
  predicate Completes(plan: seq<Call>, pos: nat, answer: (nat, Call) -> Answer) {
    plan == [] || (!answer(pos, plan[0]).Throws? && Completes(plan[1..], pos + 1, answer))
  }

  /** Completes says of each call, at its own position, that it does not throw. */
  lemma {:induction false} CompletesSpec(plan: seq<Call>, pos: nat, answer: (nat, Call) -> Answer)
    ensures Completes(plan, pos, answer) <==> forall i :: 0 <= i < |plan| ==> !answer(pos + i, plan[i]).Throws?
  {
    if plan != [] {
      CompletesSpec(plan[1..], pos + 1, answer);
      if forall i :: 0 <= i < |plan| ==> !answer(pos + i, plan[i]).Throws? {
        forall i | 0 <= i < |plan[1..]|
          ensures !answer(pos + 1 + i, plan[1..][i]).Throws?
        {
          assert plan[1..][i] == plan[i + 1];
        }
        assert !answer(pos + 0, plan[0]).Throws?;
      }
      if Completes(plan, pos, answer) {
        forall i | 0 <= i < |plan|
          ensures !answer(pos + i, plan[i]).Throws?
        {
          if i > 0 {
            assert plan[i] == plan[1..][i - 1];
          }
        }
      }
    }
  }

  /** The calls a route whose code makes the calls of `plan` in order actually
      makes: all of them, or those up to and including the first that throws,
      since an exception leaves the route at once. */
  function Executed(plan: seq<Call>, pos: nat, answer: (nat, Call) -> Answer): seq<Call> {
    if plan == [] then []
    else if answer(pos, plan[0]).Throws? then [plan[0]]
    else [plan[0]] + Executed(plan[1..], pos + 1, answer)
  }

  /** A plan that completes is executed in full. */
  lemma {:induction false} ExecutedComplete(plan: seq<Call>, pos: nat, answer: (nat, Call) -> Answer)
    requires Completes(plan, pos, answer)
    ensures Executed(plan, pos, answer) == plan
  {
    if plan != [] {
      ExecutedComplete(plan[1..], pos + 1, answer);
    }
  }

  /** A plan that does not complete is executed up to and including its first
      throwing call: a non-empty prefix of the plan, whose last call throws and
      whose calls before it all return. */
  lemma {:induction false} ExecutedStops(plan: seq<Call>, pos: nat, answer: (nat, Call) -> Answer)
    requires !Completes(plan, pos, answer)
    ensures 1 <= |Executed(plan, pos, answer)| <= |plan|
    ensures Executed(plan, pos, answer) == plan[..|Executed(plan, pos, answer)|]
    ensures answer(pos + |Executed(plan, pos, answer)| - 1, plan[|Executed(plan, pos, answer)| - 1]).Throws?
    ensures Completes(plan[..|Executed(plan, pos, answer)| - 1], pos, answer)
  {
    if !answer(pos, plan[0]).Throws? {
      var tail := plan[1..];
      ExecutedStops(tail, pos + 1, answer);
      var n := |Executed(tail, pos + 1, answer)|;
      assert Executed(plan, pos, answer) == [plan[0]] + Executed(tail, pos + 1, answer);
      assert plan[..n + 1] == [plan[0]] + tail[..n];
      assert plan[n] == tail[n - 1];
      var head := plan[..n];
      assert head[1..] == tail[..n - 1];
    } else {
      assert plan[..0] == [];
    }
  }

  /** After a plan that completes, the next plan runs from where it ended. */
  lemma {:induction false} ExecutedAfter(a: seq<Call>, b: seq<Call>, pos: nat, answer: (nat, Call) -> Answer)
    requires Completes(a, pos, answer)
    ensures Executed(a + b, pos, answer) == a + Executed(b, pos + |a|, answer)
    ensures Completes(a + b, pos, answer) <==> Completes(b, pos + |a|, answer)
  {
    if a == [] {
      assert a + b == b;
    } else {
      var ab := a + b;
      assert ab[1..] == a[1..] + b;
      assert ab[0] == a[0];
      ExecutedAfter(a[1..], b, pos + 1, answer);
      Associative([a[0]], a[1..], Executed(b, pos + |a|, answer));
      assert [a[0]] + a[1..] == a;
    }
  }

  /** A plan that throws ends the run: nothing after it is called. */
  lemma {:induction false} ExecutedBefore(a: seq<Call>, b: seq<Call>, pos: nat, answer: (nat, Call) -> Answer)
    requires !Completes(a, pos, answer)
    ensures Executed(a + b, pos, answer) == Executed(a, pos, answer)
    ensures !Completes(a + b, pos, answer)
  {
    var ab := a + b;
    assert ab[1..] == a[1..] + b;
    assert ab[0] == a[0];
    if !answer(pos, a[0]).Throws? {
      ExecutedBefore(a[1..], b, pos + 1, answer);
    }
  }

  lemma Associative(x: seq<Call>, y: seq<Call>, z: seq<Call>)
    ensures x + y + z == x + (y + z)
  {
  }

  lemma SamePosition(plan: seq<Call>, p: nat, q: nat, answer: (nat, Call) -> Answer)
    requires p == q
    ensures Executed(plan, p, answer) == Executed(plan, q, answer)
    ensures Completes(plan, p, answer) <==> Completes(plan, q, answer)
  {
  }

  /** Runs compose: a trace that grew by the prefix `a`, which completed, and
      then by the run of `b` grew by the run of `a + b`. */
  lemma RunAfter(t0: seq<Call>, a: seq<Call>, t1: seq<Call>, b: seq<Call>, t2: seq<Call>,
                 answer: (nat, Call) -> Answer)
    requires t1 == t0 + a && Completes(a, |t0|, answer)
    requires t2 == t1 + Executed(b, |t1|, answer)
    ensures t2 == t0 + Executed(a + b, |t0|, answer)
    ensures Completes(b, |t1|, answer) <==> Completes(a + b, |t0|, answer)
  {
    ExecutedAfter(a, b, |t0|, answer);
    SamePosition(b, |t1|, |t0| + |a|, answer);
    Associative(t0, a, Executed(b, |t1|, answer));
  }

  /** A run after a completed prefix that itself completed made every call. */
  lemma RunAfterComplete(t0: seq<Call>, a: seq<Call>, t1: seq<Call>, b: seq<Call>, t2: seq<Call>,
                         answer: (nat, Call) -> Answer)
    requires t1 == t0 + a && Completes(b, |t1|, answer)
    requires t2 == t1 + Executed(b, |t1|, answer)
    ensures t2 == t0 + (a + b)
  {
    ExecutedComplete(b, |t1|, answer);
    Associative(t0, a, b);
  }

  /** The same, where the trace grew by the run of `a`. */
  lemma RunThen(t0: seq<Call>, a: seq<Call>, t1: seq<Call>, b: seq<Call>, t2: seq<Call>,
                answer: (nat, Call) -> Answer)
    requires t1 == t0 + Executed(a, |t0|, answer) && Completes(a, |t0|, answer)
    requires t2 == t1 + Executed(b, |t1|, answer)
    ensures t2 == t0 + Executed(a + b, |t0|, answer)
    ensures Completes(b, |t1|, answer) <==> Completes(a + b, |t0|, answer)
  {
    ExecutedComplete(a, |t0|, answer);
    RunAfter(t0, a, t1, b, t2, answer);
  }

  /** A run that threw is also the run of any plan that continues it. */
  lemma RunStops(t0: seq<Call>, a: seq<Call>, t1: seq<Call>, rest: seq<Call>, answer: (nat, Call) -> Answer)
    requires t1 == t0 + Executed(a, |t0|, answer) && !Completes(a, |t0|, answer)
    ensures t1 == t0 + Executed(a + rest, |t0|, answer) && !Completes(a + rest, |t0|, answer)
  {
    ExecutedBefore(a, rest, |t0|, answer);
  }

  /** A single call is a run of the one-call plan. */
  lemma RunOne(t0: seq<Call>, c: Call, t1: seq<Call>, answer: (nat, Call) -> Answer)
    requires t1 == t0 + [c]
    ensures t1 == t0 + Executed([c], |t0|, answer)
    ensures Completes([c], |t0|, answer) <==> !answer(|t0|, c).Throws?
  {
    assert [c][1..] == [];
  }
}
