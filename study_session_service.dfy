/** The "study_sessions" collection and the service that manages it
    (backend/app/services/study_session_service.py). */
module StudySessions {
  import opened Common
  import opened Collection

  datatype SessionState = Scheduled | InProgress | Completed | Missed

  /** StudySessionCreate: what a client sends to create a session. */
  datatype StudySessionCreate = StudySessionCreate(
    startTime: Instant,
    endTime: Instant,
    topicId: Id,
    userId: Id,
    requestId: Option<Id>,
    calendarEvent: Option<string>,
    numberSessions: Option<int>)

  /** The data stored for a session (the document body, without its id). */
  datatype SessionDoc = SessionDoc(
    startTime: Instant,
    endTime: Instant,
    topicId: Id,
    userId: Id,
    requestId: Option<Id>,
    calendarEvent: Option<string>,
    numberSessions: int,
    state: SessionState)

  /** StudySessionUpdate: each field is either left unset or set to a new value. */
  datatype StudySessionUpdate = StudySessionUpdate(
    startTime: Field<Instant>,
    endTime: Field<Instant>,
    calendarEvent: Field<Option<string>>,
    state: Field<SessionState>,
    numberSessions: Field<int>)

  /** True when `model_dump(exclude_unset=True)` of the update is empty. */
  predicate NoFieldsSet(u: StudySessionUpdate) {
    u.startTime.Unset? && u.endTime.Unset? && u.calendarEvent.Unset? && u.state.Unset? && u.numberSessions.Unset?
  }

  /** The document after Firestore's `update` writes the set fields of `u`. */
  function ApplyUpdate(d: SessionDoc, u: StudySessionUpdate): (r: SessionDoc)
    ensures u.startTime.Set? ==> r.startTime == u.startTime.value
    ensures u.endTime.Set? ==> r.endTime == u.endTime.value
    ensures u.calendarEvent.Set? ==> r.calendarEvent == u.calendarEvent.value
    ensures u.state.Set? ==> r.state == u.state.value
    ensures u.numberSessions.Set? ==> r.numberSessions == u.numberSessions.value
    ensures u.startTime.Unset? ==> r.startTime == d.startTime
    ensures u.endTime.Unset? ==> r.endTime == d.endTime
    ensures u.calendarEvent.Unset? ==> r.calendarEvent == d.calendarEvent
    ensures u.state.Unset? ==> r.state == d.state
    ensures u.numberSessions.Unset? ==> r.numberSessions == d.numberSessions
    ensures r.topicId == d.topicId && r.userId == d.userId && r.requestId == d.requestId
  {
    d.(startTime := u.startTime.Merge(d.startTime),
       endTime := u.endTime.Merge(d.endTime),
       calendarEvent := u.calendarEvent.Merge(d.calendarEvent),
       state := u.state.Merge(d.state),
       numberSessions := u.numberSessions.Merge(d.numberSessions))
  }

  /** An update with no field set leaves a session as it is. */
  lemma EmptyUpdateKeepsSession(d: SessionDoc, u: StudySessionUpdate)
    requires NoFieldsSet(u)
    ensures ApplyUpdate(d, u) == d
  {
  }

  /** Writing the same update twice is the same as writing it once. */
  lemma UpdateIdempotent(d: SessionDoc, u: StudySessionUpdate)
    ensures ApplyUpdate(ApplyUpdate(d, u), u) == ApplyUpdate(d, u)
  {
  }

  class StudySessionService {
    /** The collection "study_sessions", keyed by document id. */
    var sessions: map<Id, SessionDoc>

    constructor (stored: map<Id, SessionDoc>)
      ensures sessions == stored
    {
      sessions := stored;
    }

    /** create_study_session: stores the input with state SCHEDULED and
        numberSessions defaulting to 1, under the id Firestore generates. */
    method CreateStudySession(input: StudySessionCreate, freshId: Id) returns (s: Doc<SessionDoc>)
      requires freshId !in sessions
      modifies this
      ensures s.id == freshId
      ensures s.data.state == Scheduled
      ensures input.numberSessions.None? ==> s.data.numberSessions == 1
      ensures input.numberSessions.Some? ==> s.data.numberSessions == input.numberSessions.value
      ensures s.data.startTime == input.startTime && s.data.endTime == input.endTime
      ensures s.data.topicId == input.topicId && s.data.userId == input.userId
      ensures s.data.requestId == input.requestId && s.data.calendarEvent == input.calendarEvent
      ensures sessions == old(sessions)[freshId := s.data]
      ensures |sessions| == |old(sessions)| + 1
    {
      var numberSessions := 1;
      if input.numberSessions.Some? {
        numberSessions := input.numberSessions.value;
      }
      var doc := SessionDoc(input.startTime, input.endTime, input.topicId, input.userId,
                            input.requestId, input.calendarEvent, numberSessions, Scheduled);
      sessions := sessions[freshId := doc];
      s := Doc(freshId, doc);
    }

    /** get_study_session: the stored session, or None when the id is missing. */
    method GetStudySession(id: Id) returns (r: Option<Doc<SessionDoc>>)
      ensures r.None? <==> id !in sessions
      ensures r.Some? ==> r.value.id == id && r.value.data == sessions[id]
    {
      if id in sessions {
        r := Some(Doc(id, sessions[id]));
      } else {
        r := None;
      }
    }

    /** update_study_session: with no field set, a plain get; otherwise Firestore
        writes the set fields (failing with NotFound on a missing id) and the
        session is read back. */
    method UpdateStudySession(id: Id, u: StudySessionUpdate) returns (r: Result<Option<Doc<SessionDoc>>, StoreError>)
      modifies this
      ensures NoFieldsSet(u) ==> sessions == old(sessions) && r == Success(Lookup(sessions, id))
      ensures !NoFieldsSet(u) && id !in old(sessions) ==> sessions == old(sessions) && r == Failure(NotFound(id))
      ensures !NoFieldsSet(u) && id in old(sessions) ==>
        && sessions == old(sessions)[id := ApplyUpdate(old(sessions)[id], u)]
        && r == Success(Some(Doc(id, sessions[id])))
    {
      if NoFieldsSet(u) {
        var found := GetStudySession(id);
        return Success(found);
      }
      if id !in sessions {
        return Failure(NotFound(id));
      }
      sessions := sessions[id := ApplyUpdate(sessions[id], u)];
      var found := GetStudySession(id);
      r := Success(found);
    }

    /** delete_study_session: removes the id (a no-op when it is missing) and reports true. */
    method DeleteStudySession(id: Id) returns (ok: bool)
      modifies this
      ensures ok
      ensures sessions == old(sessions) - {id}
    {
      sessions := sessions - {id};
      ok := true;
    }

    /** list_study_sessions_by_user: every session of the user, once each, in no particular order. */
    method ListStudySessionsByUser(userId: Id) returns (r: seq<Doc<SessionDoc>>)
      ensures DistinctIds(r) && FromTable(sessions, r)
      ensures forall i :: 0 <= i < |r| ==> r[i].data.userId == userId
      ensures forall id :: id in sessions && sessions[id].userId == userId ==> id in Ids(r)
    {
      var ofUser := (d: SessionDoc) => d.userId == userId;
      r := Where(sessions, ofUser);
      forall i | 0 <= i < |r| ensures r[i].data.userId == userId {
        IdsMembership(r, r[i].id);
      }
    }

    /** list_study_sessions_by_topic: every session of the topic, once each, in no particular order. */
    method ListStudySessionsByTopic(topicId: Id) returns (r: seq<Doc<SessionDoc>>)
      ensures DistinctIds(r) && FromTable(sessions, r)
      ensures forall i :: 0 <= i < |r| ==> r[i].data.topicId == topicId
      ensures forall id :: id in sessions && sessions[id].topicId == topicId ==> id in Ids(r)
    {
      var ofTopic := (d: SessionDoc) => d.topicId == topicId;
      r := Where(sessions, ofTopic);
      forall i | 0 <= i < |r| ensures r[i].data.topicId == topicId {
        IdsMembership(r, r[i].id);
      }
    }
  }
}
