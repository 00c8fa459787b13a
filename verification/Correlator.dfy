/** Matching responses to requests. */
module Correlator {
  import opened Common

  datatype CorrelationError =
    | PendingRequestLimit(limit: nat)
    | ClientRequestIdsExhausted
    | DuplicateResponseId(id: nat)
    | UnknownResponseId(id: nat)

  class ResponseCorrelator {
    var nextId: nat
    var pending: set<nat>
    const maxPending: nat
    /** The requests that have had their response. */
    ghost var answered: set<nat>

    /** Every identifier handed out so far is pending or answered, and not both. */
    ghost predicate Valid()
      reads this
    {
      && 0 < nextId < U64
      && pending !! answered
      && (forall id: nat :: id in pending || id in answered <==> 0 < id < nextId)
      && |pending| <= maxPending
    }

    constructor (maxPending: nat)
      ensures Valid() && pending == {} && answered == {} && this.maxPending == maxPending
    {
      nextId, pending, answered := 1, {}, {};
      this.maxPending := maxPending;
    }

    /** A request gets an identifier that was never used before. */
    method BeginRequest() returns (r: Result<nat, CorrelationError>)
      requires Valid()
      modifies this
      ensures Valid() && answered == old(answered)
      ensures r.Ok? <==> old(|pending|) < maxPending && old(nextId) < U64 - 1
      ensures r.Ok? ==> r.value !in old(pending) && r.value !in old(answered) && pending == old(pending) + {r.value}
      ensures r.Err? ==> pending == old(pending)
      ensures r.Err? ==>
                r.error ==
                  if old(|pending|) >= maxPending then PendingRequestLimit(maxPending) else ClientRequestIdsExhausted
    {
      if |pending| >= maxPending {
        return Err(PendingRequestLimit(maxPending));
      }
      if nextId + 1 >= U64 {
        return Err(ClientRequestIdsExhausted);
      }
      var id := nextId;
      nextId := nextId + 1;
      pending := pending + {id};
      return Ok(id);
    }

    /** A pending request is answered once; a second answer is a duplicate and any other is unknown. */
    method Complete(id: nat) returns (r: Result<(), CorrelationError>)
      requires Valid()
      modifies this
      ensures Valid()
      ensures r.Ok? <==> id in old(pending)
      ensures r.Ok? ==> pending == old(pending) - {id} && answered == old(answered) + {id}
      ensures r.Err? ==> pending == old(pending) && answered == old(answered)
      ensures r == Err(DuplicateResponseId(id)) <==> id in old(answered)
      ensures r == Err(UnknownResponseId(id)) <==> id !in old(answered) && id !in old(pending)
    {
      if id in pending {
        pending, answered := pending - {id}, answered + {id};
        return Ok(());
      }
      if 0 < id < nextId {
        return Err(DuplicateResponseId(id));
      }
      return Err(UnknownResponseId(id));
    }
  }
}
