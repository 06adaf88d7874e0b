/** The "youtube_suggestions" collection and the service that manages it
    (backend/app/services/youtube_suggestion_service.py). */
module YouTubeSuggestions {
  import opened Common
  import opened Collection

  /** At most this many suggestions are listed for a topic. */
  const ListLimit: nat := 5

  /** YouTubeSuggestionCreate: what a client sends to store a video suggestion. */
  datatype SuggestionCreate = SuggestionCreate(title: string, url: string, topicId: Id)

  /** The data stored for a suggestion (the document body, without its id). */
  datatype SuggestionDoc = SuggestionDoc(title: string, url: string, topicId: Id)

  /** YouTubeSuggestionUpdate: each field is either left unset or set to a new value. */
  datatype SuggestionUpdate = SuggestionUpdate(title: Field<string>, url: Field<string>)

  predicate NoFieldsSet(u: SuggestionUpdate) {
    u.title.Unset? && u.url.Unset?
  }

  /** The document after Firestore's `update` writes the set fields of `u`. */
  function ApplyUpdate(d: SuggestionDoc, u: SuggestionUpdate): (r: SuggestionDoc)
    ensures u.title.Set? ==> r.title == u.title.value
    ensures u.url.Set? ==> r.url == u.url.value
    ensures u.title.Unset? ==> r.title == d.title
    ensures u.url.Unset? ==> r.url == d.url
    ensures r.topicId == d.topicId
  {
    d.(title := u.title.Merge(d.title), url := u.url.Merge(d.url))
  }

  /** The ids of the suggestions stored for a topic. */
  function TopicSuggestionIds(suggestions: map<Id, SuggestionDoc>, topicId: Id): set<Id> {
    set id | id in suggestions && suggestions[id].topicId == topicId
  }

  class YouTubeSuggestionService {
    /** The collection "youtube_suggestions", keyed by document id. */
    var suggestions: map<Id, SuggestionDoc>

    constructor (stored: map<Id, SuggestionDoc>)
      ensures suggestions == stored
    {
      suggestions := stored;
    }

    /** create_youtube_suggestion: stores the input under the id Firestore generates. */
    method CreateYouTubeSuggestion(input: SuggestionCreate, freshId: Id) returns (s: Doc<SuggestionDoc>)
      requires freshId !in suggestions
      modifies this
      ensures s == Doc(freshId, SuggestionDoc(input.title, input.url, input.topicId))
      ensures suggestions == old(suggestions)[freshId := s.data]
      ensures |suggestions| == |old(suggestions)| + 1
    {
      var doc := SuggestionDoc(input.title, input.url, input.topicId);
      suggestions := suggestions[freshId := doc];
      s := Doc(freshId, doc);
    }

    /** get_youtube_suggestion: the stored suggestion, or None when the id is missing. */
    method GetYouTubeSuggestion(id: Id) returns (r: Option<Doc<SuggestionDoc>>)
      ensures r.None? <==> id !in suggestions
      ensures r.Some? ==> r.value.id == id && r.value.data == suggestions[id]
    {
      if id in suggestions {
        r := Some(Doc(id, suggestions[id]));
      } else {
        r := None;
      }
    }

    /** update_youtube_suggestion: with no field set, a plain get; otherwise
        Firestore writes the set fields (failing with NotFound on a missing id)
        and the suggestion is read back. */
    method UpdateYouTubeSuggestion(id: Id, u: SuggestionUpdate) returns (r: Result<Option<Doc<SuggestionDoc>>, StoreError>)
      modifies this
      ensures NoFieldsSet(u) ==> suggestions == old(suggestions) && r == Success(Lookup(suggestions, id))
      ensures !NoFieldsSet(u) && id !in old(suggestions) ==> suggestions == old(suggestions) && r == Failure(NotFound(id))
      ensures !NoFieldsSet(u) && id in old(suggestions) ==>
        && suggestions == old(suggestions)[id := ApplyUpdate(old(suggestions)[id], u)]
        && r == Success(Some(Doc(id, suggestions[id])))
    {
      if NoFieldsSet(u) {
        var found := GetYouTubeSuggestion(id);
        return Success(found);
      }
      if id !in suggestions {
        return Failure(NotFound(id));
      }
      suggestions := suggestions[id := ApplyUpdate(suggestions[id], u)];
      var found := GetYouTubeSuggestion(id);
      r := Success(found);
    }

    /** delete_youtube_suggestion: removes the id (a no-op when it is missing) and reports true. */
    method DeleteYouTubeSuggestion(id: Id) returns (ok: bool)
      modifies this
      ensures ok
      ensures suggestions == old(suggestions) - {id}
    {
      suggestions := suggestions - {id};
      ok := true;
    }

    /** list_youtube_suggestions_by_topic: at most five suggestions of the
        topic, min(5, how many there are), distinct, in no particular order. */
    method ListYouTubeSuggestionsByTopic(topicId: Id) returns (r: seq<Doc<SuggestionDoc>>)
      ensures |r| == if |TopicSuggestionIds(suggestions, topicId)| < ListLimit
                     then |TopicSuggestionIds(suggestions, topicId)| else ListLimit
      ensures DistinctIds(r) && FromTable(suggestions, r)
      ensures forall i :: 0 <= i < |r| ==> r[i].data.topicId == topicId
    {
      var ofTopic := (d: SuggestionDoc) => d.topicId == topicId;
      var docs := Where(suggestions, ofTopic);
      r := Limit(docs, ListLimit);
      LimitedAnswer(suggestions, ofTopic, docs, ListLimit);
      assert MatchingIds(suggestions, ofTopic) == TopicSuggestionIds(suggestions, topicId);
      forall i | 0 <= i < |r| ensures r[i].data.topicId == topicId {
        IdsMembership(r, r[i].id);
      }
    }

    /** count_suggestions_by_topic: how many suggestions the topic has, with no cap. */
    method CountSuggestionsByTopic(topicId: Id) returns (n: nat)
      ensures n == |TopicSuggestionIds(suggestions, topicId)|
    {
      var ofTopic := (d: SuggestionDoc) => d.topicId == topicId;
      var docs := Where(suggestions, ofTopic);
      n := CountDocs(docs);
      assert MatchingIds(suggestions, ofTopic) == TopicSuggestionIds(suggestions, topicId);
    }
  }
}
