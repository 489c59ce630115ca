/**
 What a request is charged (service/billing_session.go, service/billing.go): quota taken in advance from
 the wallet, settled against the actual use or given back, once. Database errors are not modelled.
 */
module Billing {
  import opened Options

  datatype Session = Session(consumed: nat, settled: bool, refunded: bool)

  datatype Call = Settling(actual: int) | Refunding

  /** The wallet's gain and the session after a call. */
  function After(s: Session, call: Call): (int, Session) {
    match call
    case Settling(actual) => if s.settled then (0, s) else (s.consumed - actual, s.(settled := true))
    case Refunding =>
      if s.settled || s.refunded || s.consumed == 0 then (0, s) else (s.consumed, s.(refunded := true))
  }

  /** What a sequence of calls adds to the wallet in all, and the session they leave. */
  function AfterAll(s: Session, calls: seq<Call>): (int, Session) {
    if |calls| == 0 then (0, s)
    else
      var (gain, t) := AfterAll(s, calls[..|calls| - 1]);
      var (more, u) := After(t, calls[|calls| - 1]);
      (gain + more, u)
  }

  /** The first settlement among the calls, or their number. */
  function FirstSettling(calls: seq<Call>): (k: nat)
    ensures k <= |calls| && (k < |calls| ==> calls[k].Settling?)
    ensures forall i :: 0 <= i < k ==> calls[i].Refunding?
  {
    if |calls| == 0 then 0
    else
      var before := FirstSettling(calls[..|calls| - 1]);
      if before < |calls| - 1 then before
      else if calls[|calls| - 1].Settling? then |calls| - 1
      else |calls|
  }

  /** However often and in whatever order a session is settled and refunded, it is refunded at most once
      and settled at most once, by the first settlement. */
  lemma {:induction false} SessionEnds(consumed: nat, calls: seq<Call>)
    ensures var (gain, s) := AfterAll(Session(consumed, false, false), calls);
            var k := FirstSettling(calls);
            && s.consumed == consumed
            && (s.settled <==> k < |calls|)
            && (s.refunded <==> consumed > 0 && k > 0)
            && gain == (if k > 0 then consumed else 0) + (if k < |calls| then consumed - calls[k].actual else 0)
  {
    if |calls| > 0 {
      SessionEnds(consumed, calls[..|calls| - 1]);
    }
  }

  /** The user pays exactly the settled use iff nothing was taken in advance or no refund came first:
      a settlement after a refund charges too little by what was taken. */
  lemma SettledExactly(consumed: nat, calls: seq<Call>)
    requires FirstSettling(calls) < |calls|
    ensures var paid := consumed - AfterAll(Session(consumed, false, false), calls).0;
            var k := FirstSettling(calls);
            paid == calls[k].actual <==> consumed == 0 || calls[0].Settling?
  {
    SessionEnds(consumed, calls);
  }

  /** The user's wallet, the remaining quota of the request's token, which a playground request leaves alone,
      and the request's billing session, if one was opened. */
  class Account {
    var wallet: int
    var token: int
    const playground: bool
    var session: Option<Session>
    /** How often a refund was asked for. */
    var refundCalls: nat
    /** How often a settlement was asked for. */
    var settleCalls: nat

    constructor (wallet: int, token: int, playground: bool)
      ensures this.wallet == wallet && this.token == token && this.playground == playground
      ensures session == None && refundCalls == 0 && settleCalls == 0
    {
      this.wallet, this.token, this.playground := wallet, token, playground;
      session, refundCalls, settleCalls := None, 0, 0;
    }

    /** Moves quota into the wallet, negative amounts out of it, and the token along with it. */
    method Add(quota: int)
      modifies this`wallet, this`token
      ensures wallet == old(wallet) + quota
      ensures token == old(token) + if playground then 0 else quota
    {
      wallet := wallet + quota;
      if !playground {
        token := token + quota;
      }
    }

    method PreConsume(quota: nat)
      modifies this`wallet, this`token, this`session
      ensures wallet == old(wallet) - quota
      ensures token == old(token) + if playground then 0 else wallet - old(wallet)
      ensures session == Some(Session(quota, false, false))
    {
      Add(0 - quota);
      session := Some(Session(quota, false, false));
    }

    /** SettleBilling; without a session the whole use is charged. */
    method Settle(actual: int)
      modifies this
      ensures settleCalls == old(settleCalls) + 1 && refundCalls == old(refundCalls)
      ensures token == old(token) + if playground then 0 else wallet - old(wallet)
      ensures match old(session) {
                case None => session == None && wallet == old(wallet) - actual
                case Some(s) => var (gain, t) := After(s, Settling(actual));
                                session == Some(t) && wallet == old(wallet) + gain
              }
    {
      settleCalls := settleCalls + 1;
      if session.None? {
        Add(-actual);
        return;
      }
      if session.value.settled {
        return;
      }
      Add(session.value.consumed - actual);
      session := Some(session.value.(settled := true));
    }

    /** BillingSession.Refund, where there is a session. */
    method Refund()
      modifies this
      ensures settleCalls == old(settleCalls)
      ensures token == old(token) + if playground then 0 else wallet - old(wallet)
      ensures match old(session) {
                case None => session == None && wallet == old(wallet) && refundCalls == old(refundCalls)
                case Some(s) => var (gain, t) := After(s, Refunding);
                                session == Some(t) && wallet == old(wallet) + gain && refundCalls == old(refundCalls) + 1
              }
    {
      if session.None? {
        return;
      }
      refundCalls := refundCalls + 1;
      var s := session.value;
      if s.settled || s.refunded || !(s.consumed > 0) {
        return;
      }
      session := Some(s.(refunded := true));
      Add(s.consumed);
    }

    /** PostConsumeQuota of a fee, outside the session. */
    method Charge(quota: nat)
      modifies this`wallet, this`token
      ensures wallet == old(wallet) - quota
      ensures token == old(token) + if playground then 0 else wallet - old(wallet)
    {
      Add(0 - quota);
    }
  }
}
