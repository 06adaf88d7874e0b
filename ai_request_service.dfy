/** The "ai_requests" collection and the service that manages it
    (backend/app/services/ai_request_service.py). */
module AIRequests {
  import opened Common
  import opened Collection

  datatype AIStatus = Pending | Completed | Failed

  /** AIRequestCreate: what a client sends to record a request to the AI. */
  datatype AIRequestCreate = AIRequestCreate(prompt: string, topicId: Id, slideId: Option<Id>, userId: Id)

  /** The data stored for a request (the document body, without its id).
      A request is stored without a response, which reads back as None. */
  datatype AIRequestDoc = AIRequestDoc(
    prompt: string,
    topicId: Id,
    slideId: Option<Id>,
    userId: Id,
    response: Option<string>,
    status: AIStatus,
    createdAt: Instant)

  /** AIRequestUpdate: each field is either left unset or set to a new value. */
  datatype AIRequestUpdate = AIRequestUpdate(response: Field<Option<string>>, status: Field<AIStatus>)

  predicate NoFieldsSet(u: AIRequestUpdate) {
    u.response.Unset? && u.status.Unset?
  }

  /** The document after Firestore's `update` writes the set fields of `u`:
      only the response and the status can change. */
  function ApplyUpdate(d: AIRequestDoc, u: AIRequestUpdate): (r: AIRequestDoc)
    ensures u.response.Set? ==> r.response == u.response.value
    ensures u.status.Set? ==> r.status == u.status.value
    ensures u.response.Unset? ==> r.response == d.response
    ensures u.status.Unset? ==> r.status == d.status
    ensures r.prompt == d.prompt && r.topicId == d.topicId && r.slideId == d.slideId
    ensures r.userId == d.userId && r.createdAt == d.createdAt
  {
    d.(response := u.response.Merge(d.response), status := u.status.Merge(d.status))
  }

  class AIRequestService {
    /** The collection "ai_requests", keyed by document id. */
    var requests: map<Id, AIRequestDoc>

    constructor (stored: map<Id, AIRequestDoc>)
      ensures requests == stored
    {
      requests := stored;
    }

    /** create_ai_request: stores the input with status PENDING, stamped with
        `now`, under the id Firestore generates. */
    method CreateAIRequest(input: AIRequestCreate, now: Instant, freshId: Id) returns (q: Doc<AIRequestDoc>)
      requires freshId !in requests
      modifies this
      ensures q.id == freshId
      ensures q.data.status == Pending
      ensures q.data.createdAt == now
      ensures q.data.response.None?
      ensures q.data.prompt == input.prompt && q.data.topicId == input.topicId
      ensures q.data.slideId == input.slideId && q.data.userId == input.userId
      ensures requests == old(requests)[freshId := q.data]
      ensures |requests| == |old(requests)| + 1
    {
      var doc := AIRequestDoc(input.prompt, input.topicId, input.slideId, input.userId, None, Pending, now);
      requests := requests[freshId := doc];
      q := Doc(freshId, doc);
    }

    /** get_ai_request: the stored request, or None when the id is missing. */
    method GetAIRequest(id: Id) returns (r: Option<Doc<AIRequestDoc>>)
      ensures r.None? <==> id !in requests
      ensures r.Some? ==> r.value.id == id && r.value.data == requests[id]
    {
      if id in requests {
        r := Some(Doc(id, requests[id]));
      } else {
        r := None;
      }
    }

    /** update_ai_request: with no field set, a plain get; otherwise Firestore
        writes the set fields (failing with NotFound on a missing id) and the
        request is read back. */
    method UpdateAIRequest(id: Id, u: AIRequestUpdate) returns (r: Result<Option<Doc<AIRequestDoc>>, StoreError>)
      modifies this
      ensures NoFieldsSet(u) ==> requests == old(requests) && r == Success(Lookup(requests, id))
      ensures !NoFieldsSet(u) && id !in old(requests) ==> requests == old(requests) && r == Failure(NotFound(id))
      ensures !NoFieldsSet(u) && id in old(requests) ==>
        && requests == old(requests)[id := ApplyUpdate(old(requests)[id], u)]
        && r == Success(Some(Doc(id, requests[id])))
    {
      if NoFieldsSet(u) {
        var found := GetAIRequest(id);
        return Success(found);
      }
      if id !in requests {
        return Failure(NotFound(id));
      }
      requests := requests[id := ApplyUpdate(requests[id], u)];
      var found := GetAIRequest(id);
      r := Success(found);
    }

    /** delete_ai_request: removes the id (a no-op when it is missing) and reports true. */
    method DeleteAIRequest(id: Id) returns (ok: bool)
      modifies this
      ensures ok
      ensures requests == old(requests) - {id}
    {
      requests := requests - {id};
      ok := true;
    }

    /** list_ai_requests_by_user: every request of the user, once each, in no particular order. */
    method ListAIRequestsByUser(userId: Id) returns (r: seq<Doc<AIRequestDoc>>)
      ensures DistinctIds(r) && FromTable(requests, r)
      ensures forall i :: 0 <= i < |r| ==> r[i].data.userId == userId
      ensures forall id :: id in requests && requests[id].userId == userId ==> id in Ids(r)
    {
      var ofUser := (d: AIRequestDoc) => d.userId == userId;
      r := Where(requests, ofUser);
      forall i | 0 <= i < |r| ensures r[i].data.userId == userId {
        IdsMembership(r, r[i].id);
      }
    }

    /** list_ai_requests_by_topic: every request of the topic, once each, in no particular order. */
    method ListAIRequestsByTopic(topicId: Id) returns (r: seq<Doc<AIRequestDoc>>)
      ensures DistinctIds(r) && FromTable(requests, r)
      ensures forall i :: 0 <= i < |r| ==> r[i].data.topicId == topicId
      ensures forall id :: id in requests && requests[id].topicId == topicId ==> id in Ids(r)
    {
      var ofTopic := (d: AIRequestDoc) => d.topicId == topicId;
      r := Where(requests, ofTopic);
      forall i | 0 <= i < |r| ensures r[i].data.topicId == topicId {
        IdsMembership(r, r[i].id);
      }
    }
  }
}
