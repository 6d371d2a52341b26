/** Resolving counter requests, at an instant, to the charges and calls of the ledger. */
module Requests {
  import opened Calendar
  import opened CounterStore
  import opened CounterLedger

  datatype Attempt = Attempt(key: string, fingerprint: string)

  function ChargeOf(request: CounterRequest, now: int): Charge {
    Charge(CounterRow(request.key, request.Span(), now), request.Units(), request.limit,
           ExhaustedCounter(request.key, request.limit, NextResetAt(now, request.Span())))
  }

  function Charges(requests: seq<CounterRequest>, now: int): (charges: seq<Charge>)
    ensures |charges| == |requests|
    ensures forall k :: 0 <= k < |requests| ==> charges[k] == ChargeOf(requests[k], now)
  {
    seq(|requests|, k requires 0 <= k < |requests| => ChargeOf(requests[k], now))
  }

  function ReceiptRow(attempt: Attempt, now: int): Row {
    CounterRow(attempt.key, Daily, now)
  }

  function OnceCall(requests: seq<CounterRequest>, attempt: Attempt, now: int): Call {
    Once(Charges(requests, now), ReceiptRow(attempt, now), attempt.fingerprint)
  }
}
