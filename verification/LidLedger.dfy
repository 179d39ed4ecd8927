/** The history of lid-session calls an application makes, shared by the guardian protocol
    (what the system does with such a history) and the delegate (which histories it makes). */
module LidLedger {
  datatype LidCall =
    | Began           // `start_with` was entered
    | Started(g: nat) // it returned the session owning guardian g
    | Failed          // it returned an error, having reaped whatever it spawned
    | Stopped(g: nat) // the session owning guardian g was restored and reaped
    | Verified        // `authorize` ran the power command itself

  function Front(calls: seq<LidCall>): seq<LidCall>
    requires calls != []
  {
    calls[..|calls| - 1]
  }

  function Last(calls: seq<LidCall>): LidCall
    requires calls != []
  {
    calls[|calls| - 1]
  }

  function OpenNext(open: set<nat>, c: LidCall): set<nat> {
    match c
    case Started(g) => open + {g}
    case Stopped(g) => open - {g}
    case _ => open
  }

  /** Sessions handed out and not yet stopped. */
  function Open(calls: seq<LidCall>): set<nat> {
    if calls == [] then {} else OpenNext(Open(Front(calls)), Last(calls))
  }

  predicate LegalNext(past: seq<LidCall>, c: LidCall) {
    match c
    case Started(g) => past != [] && Last(past) == Began && Started(g) !in past
    case Failed => past != [] && Last(past) == Began
    case Stopped(g) => g in Open(past)
    case _ => true
  }

  /** Calls do not overlap in time, guardians are new, and only an open session is stopped. */
  predicate Legal(calls: seq<LidCall>) {
    calls == [] || (Legal(Front(calls)) && LegalNext(Front(calls), Last(calls)))
  }

  predicate ExclusiveNext(past: seq<LidCall>, c: LidCall) {
    c == Began || c == Verified ==> Open(past) == {}
  }

  /** The discipline: the power setting is only touched again once no session is open. */
  predicate Exclusive(calls: seq<LidCall>) {
    calls == [] || (Exclusive(Front(calls)) && ExclusiveNext(Front(calls), Last(calls)))
  }

  lemma Append(calls: seq<LidCall>, c: LidCall)
    ensures Open(calls + [c]) == OpenNext(Open(calls), c)
    ensures Legal(calls + [c]) <==> Legal(calls) && LegalNext(calls, c)
    ensures Exclusive(calls + [c]) <==> Exclusive(calls) && ExclusiveNext(calls, c)
    ensures calls + [c] != [] && Last(calls + [c]) == c
  {
    assert Front(calls + [c]) == calls;
  }

  /** Conservation: every session is started at most once, and it is stopped exactly once
      or still open. */
  lemma {:induction false} EachStoppedOnce(calls: seq<LidCall>, g: nat)
    requires Legal(calls)
    ensures multiset(calls)[Started(g)] <= 1
    ensures multiset(calls)[Started(g)]
         == multiset(calls)[Stopped(g)] + (if g in Open(calls) then 1 else 0)
  {
    if calls != [] {
      var front := Front(calls);
      assert calls == front + [Last(calls)];
      EachStoppedOnce(front, g);
      if Last(calls) == Started(g) {
        assert multiset(front)[Started(g)] == 0;
      }
    }
  }

  /** Under the discipline there is at most one open session at any time. */
  lemma {:induction false} AtMostOneOpen(calls: seq<LidCall>, a: nat, b: nat)
    requires Legal(calls) && Exclusive(calls)
    requires a in Open(calls) && b in Open(calls)
    ensures a == b
  {
    var front := Front(calls);
    if Last(calls).Started? {
      assert Open(front) == Open(Front(front)) == {};
    } else {
      AtMostOneOpen(front, a, b);
    }
  }
}
